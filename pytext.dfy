/**
 * The handful of Python `str` operations the routers and services rely on:
 * strip, lower, isdigit, `in`, startswith, splitlines, join, str(int) and
 * int(str). Characters outside ASCII are treated as ordinary non-space,
 * non-digit, caseless characters.
 */
module PyText {
  import opened Wrappers

  /** Python's `str.isspace` restricted to the ASCII whitespace characters. */
  predicate IsSpace(c: char) {
    c == ' ' || c == '\t' || c == '\n' || c == '\r' || c == '\U{000B}' || c == '\U{000C}'
  }

  predicate IsDigit(c: char) {
    '0' <= c <= '9'
  }

  /** `s.isdigit()`: at least one character, and every character a digit. */
  predicate AllDigits(s: string) {
    |s| > 0 && forall i :: 0 <= i < |s| ==> IsDigit(s[i])
  }

  /** Every character a digit; the empty string qualifies. */
  predicate DigitsOnly(s: string) {
    forall i :: 0 <= i < |s| ==> IsDigit(s[i])
  }

  /** The index of the first non-space character at or after `i`, or `|s|`. */
  function SkipSpaces(s: string, i: nat): (j: nat)
    requires i <= |s|
    ensures i <= j <= |s|
    ensures forall k :: i <= k < j ==> IsSpace(s[k])
    ensures j == |s| || !IsSpace(s[j])
    decreases |s| - i
  {
    if i < |s| && IsSpace(s[i]) then SkipSpaces(s, i + 1) else i
  }

  /** The end of `s[..i]` once trailing spaces are dropped. */
  function TrimEnd(s: string, i: nat): (j: nat)
    requires i <= |s|
    ensures j <= i
    ensures forall k :: j <= k < i ==> IsSpace(s[k])
    ensures j == 0 || !IsSpace(s[j - 1])
  {
    if i > 0 && IsSpace(s[i - 1]) then TrimEnd(s, i - 1) else i
  }

  /** `s.lstrip()` */
  function LStrip(s: string): (r: string)
  {
    s[SkipSpaces(s, 0)..]
  }

  /** `s.rstrip()` */
  function RStrip(s: string): (r: string)
  {
    s[..TrimEnd(s, |s|)]
  }

  /** What `lstrip` removes: a prefix made of spaces, leaving no space in front. */
  lemma LStripSpec(s: string)
    ensures |LStrip(s)| <= |s| && LStrip(s) == s[|s| - |LStrip(s)|..]
    ensures forall i :: 0 <= i < |s| - |LStrip(s)| ==> IsSpace(s[i])
    ensures LStrip(s) == [] || !IsSpace(LStrip(s)[0])
  {
  }

  /** What `rstrip` removes: a suffix made of spaces, leaving no space at the end. */
  lemma RStripSpec(s: string)
    ensures |RStrip(s)| <= |s| && RStrip(s) == s[..|RStrip(s)|]
    ensures forall i :: |RStrip(s)| <= i < |s| ==> IsSpace(s[i])
    ensures RStrip(s) == [] || !IsSpace(RStrip(s)[|RStrip(s)| - 1])
  {
  }

  /** `s.strip()` */
  function Strip(s: string): string {
    RStrip(LStrip(s))
  }

  /** A stripped string has nothing left to strip. */
  lemma StripIdempotent(s: string)
    ensures Strip(Strip(s)) == Strip(s)
  {
    var l := LStrip(s);
    var t := RStrip(l);
    LStripSpec(s);
    RStripSpec(l);
    if t != [] {
      assert t[0] == l[0];
    }
    StripFixed(t);
  }

  /** A string with non-space ends is its own strip. */
  lemma StripFixed(s: string)
    requires s == [] || (!IsSpace(s[0]) && !IsSpace(s[|s| - 1]))
    ensures Strip(s) == s
  {
    assert SkipSpaces(s, 0) == 0;
    assert s[0..] == s;
    assert TrimEnd(s, |s|) == |s|;
  }

  /** Whitespace around a core with non-space ends is exactly what strip removes. */
  lemma StripPadded(pre: string, core: string, post: string)
    requires forall i :: 0 <= i < |pre| ==> IsSpace(pre[i])
    requires forall i :: 0 <= i < |post| ==> IsSpace(post[i])
    requires core != [] && !IsSpace(core[0]) && !IsSpace(core[|core| - 1])
    ensures Strip(pre + core + post) == core
  {
    var s := pre + core + post;
    var j := SkipSpaces(s, 0);
    assert s[|pre|] == core[0];
    assert forall k :: 0 <= k < |pre| ==> s[k] == pre[k];
    assert j == |pre|;
    var l := s[j..];
    assert l == core + post;
    var e := TrimEnd(l, |l|);
    assert l[|core| - 1] == core[|core| - 1];
    assert forall k :: |core| <= k < |l| ==> l[k] == post[k - |core|];
    assert e == |core|;
    assert l[..e] == core;
  }

  /** Stripping removes only surrounding whitespace: the result sits inside `s`. */
  lemma StripIsInfix(s: string)
    ensures exists a, b :: 0 <= a <= b <= |s| && Strip(s) == s[a..b]
  {
    var l := LStrip(s);
    var a := |s| - |l|;
    var r := RStrip(l);
    assert r == s[a..a + |r|];
  }

  function LowerChar(c: char): char {
    if 'A' <= c <= 'Z' then (c as int + 32) as char else c
  }

  /** `s.lower()` for ASCII letters. */
  function Lower(s: string): string {
    seq(|s|, i requires 0 <= i < |s| => LowerChar(s[i]))
  }

  /** `s.lower() == word` for a lower-case `word`, compared a character at a time. */
  predicate LowerIs(s: string, word: string)
    decreases |s|
  {
    |s| == |word| && (s == [] || (LowerChar(s[0]) == word[0] && LowerIs(s[1..], word[1..])))
  }

  /** `LowerIs` is the comparison of `lower()` with the word. */
  lemma {:induction false} LowerIsLower(s: string, word: string)
    ensures LowerIs(s, word) <==> Lower(s) == word
    decreases |s|
  {
    if |s| == |word| && s != [] {
      LowerIsLower(s[1..], word[1..]);
      assert Lower(s) == [LowerChar(s[0])] + Lower(s[1..]);
      assert word == [word[0]] + word[1..];
    }
  }

  /** `s.replace(a, b)` for single characters. */
  function ReplaceChar(s: string, a: char, b: char): string {
    seq(|s|, i requires 0 <= i < |s| => if s[i] == a then b else s[i])
  }

  predicate StartsWith(s: string, prefix: string) {
    |prefix| <= |s| && s[..|prefix|] == prefix
  }

  predicate OccursAt(s: string, sub: string, i: nat) {
    i + |sub| <= |s| && s[i..i + |sub|] == sub
  }

  /** `s.find(sub, start)`: the first position at or after `start` where `sub` occurs. */
  function Find(s: string, sub: string, start: nat): (r: Option<nat>)
    ensures r.Some? ==> start <= r.value && OccursAt(s, sub, r.value)
    ensures r.Some? ==> forall j :: start <= j < r.value ==> !OccursAt(s, sub, j)
    ensures r.None? ==> forall j :: start <= j ==> !OccursAt(s, sub, j)
    decreases |s| - start
  {
    if start + |sub| > |s| then None
    else if OccursAt(s, sub, start) then Some(start)
    else Find(s, sub, start + 1)
  }

  /** A first occurrence at or after `start` is what `find` returns. */
  lemma {:induction false} FindAt(s: string, sub: string, start: nat, x: nat)
    requires start <= x && OccursAt(s, sub, x)
    requires forall j :: start <= j < x ==> !OccursAt(s, sub, j)
    ensures Find(s, sub, start) == Some(x)
    decreases x - start
  {
    if start < x {
      FindAt(s, sub, start + 1, x);
    }
  }

  /** The first position at or after `i` holding one of `marks`. */
  function IndexOf(s: string, marks: set<char>, i: nat): (r: Option<nat>)
    requires i <= |s|
    ensures r.Some? ==> i <= r.value < |s| && s[r.value] in marks
    ensures r.Some? ==> forall j :: i <= j < r.value ==> s[j] !in marks
    ensures r.None? ==> forall j :: i <= j < |s| ==> s[j] !in marks
    decreases |s| - i
  {
    if i == |s| then None
    else if s[i] in marks then Some(i)
    else IndexOf(s, marks, i + 1)
  }

  /** A first position holding a mark is the one `IndexOf` finds. */
  lemma {:induction false} IndexOfAt(s: string, marks: set<char>, i: nat, x: nat)
    requires i <= x < |s| && s[x] in marks
    requires forall j :: i <= j < x ==> s[j] !in marks
    ensures IndexOf(s, marks, i) == Some(x)
    decreases x - i
  {
    if i < x {
      IndexOfAt(s, marks, i + 1, x);
    }
  }

  /** The number of digits in `s`. */
  function DigitCount(s: string): (n: nat)
    ensures n <= |s|
    ensures DigitsOnly(s) ==> n == |s|
  {
    if s == [] then 0
    else DigitCount(s[..|s| - 1]) + (if IsDigit(s[|s| - 1]) then 1 else 0)
  }

  /** `sub in s` */
  predicate Contains(s: string, sub: string) {
    Find(s, sub, 0).Some?
  }

  function DigitValue(c: char): nat
    requires IsDigit(c)
  {
    c as nat - '0' as nat
  }

  /** The number a string of decimal digits denotes; the empty string denotes 0. */
  function DigitsValue(s: string): nat
    requires DigitsOnly(s)
  {
    if s == [] then 0 else DigitsValue(s[..|s| - 1]) * 10 + DigitValue(s[|s| - 1])
  }

  function DigitChar(d: nat): char
    requires d < 10
  {
    ('0' as nat + d) as char
  }

  /** `str(n)` for a natural number: decimal digits, no leading zero. */
  function NatToString(n: nat): (r: string)
    ensures AllDigits(r)
    ensures r[0] == '0' ==> n == 0
    ensures DigitsValue(r) == n
  {
    if n < 10 then [DigitChar(n)]
    else
      var r := NatToString(n / 10) + [DigitChar(n % 10)];
      assert r[..|r| - 1] == NatToString(n / 10);
      r
  }

  /** `str(i)` */
  function IntToString(i: int): string {
    if i < 0 then "-" + NatToString(-i) else NatToString(i)
  }

  /** Splitting off an optional sign, as `int()` and `float()` do. */
  function SignOf(t: string): int {
    if |t| > 0 && t[0] == '-' then -1 else 1
  }

  function Unsigned(t: string): string {
    if |t| > 0 && (t[0] == '+' || t[0] == '-') then t[1..] else t
  }

  /**
   * The digit groups `int()` and `float()` read: digits, where a single
   * underscore may stand between two digits ("1_000"). The last character
   * is a digit, and what comes before it is nothing, digit groups, or
   * digit groups and one underscore.
   */
  predicate DigitGroups(s: string)
    decreases |s|
  {
    && |s| > 0 && IsDigit(s[|s| - 1])
    && var init := s[..|s| - 1];
       init == [] || DigitGroups(init) || (init[|init| - 1] == '_' && DigitGroups(init[..|init| - 1]))
  }

  /** The number digit groups denote, underscores ignored. */
  function GroupsValue(s: string): nat
    requires DigitGroups(s)
    decreases |s|
  {
    var init := s[..|s| - 1];
    var d := DigitValue(s[|s| - 1]);
    if init == [] then d
    else if DigitGroups(init) then GroupsValue(init) * 10 + d
    else GroupsValue(init[..|init| - 1]) * 10 + d
  }

  /** A string of digits is a single digit group with its own value. */
  lemma {:induction false} DigitsAreGroups(s: string)
    requires AllDigits(s)
    ensures DigitGroups(s) && GroupsValue(s) == DigitsValue(s)
    decreases |s|
  {
    if |s| > 1 {
      DigitsAreGroups(s[..|s| - 1]);
    }
  }

  /** Digit groups begin with a digit and hold nothing but digits and underscores. */
  lemma {:induction false} GroupsChars(s: string)
    requires DigitGroups(s)
    ensures IsDigit(s[0])
    ensures forall i :: 0 <= i < |s| ==> IsDigit(s[i]) || s[i] == '_'
    decreases |s|
  {
    var init := s[..|s| - 1];
    if init != [] {
      if DigitGroups(init) {
        GroupsChars(init);
      } else {
        GroupsChars(init[..|init| - 1]);
        assert init[..|init| - 1][0] == s[0];
      }
      assert forall i :: 0 <= i < |init| ==> s[i] == init[i];
    }
  }

  /** Two digit runs joined by an underscore read as the digits of both. */
  lemma {:induction false} GroupedDigits(a: string, b: string)
    requires AllDigits(a) && AllDigits(b)
    ensures DigitGroups(a + "_" + b) && GroupsValue(a + "_" + b) == DigitsValue(a + b)
    decreases |b|
  {
    var s := a + "_" + b;
    var n := |b| - 1;
    var init := s[..|s| - 1];
    assert (a + b)[..|a + b| - 1] == a + b[..n];
    assert s[|s| - 1] == b[n] && (a + b)[|a + b| - 1] == b[n];
    if n == 0 {
      assert init == a + "_" && init[..|init| - 1] == a;
      DigitsAreGroups(a);
    } else {
      assert init == a + "_" + b[..n];
      GroupedDigits(a, b[..n]);
    }
  }

  /**
   * `int(s)` for a string: surrounding whitespace, an optional sign and
   * digit groups; None where Python raises ValueError.
   */
  function ParseInt(s: string): (r: Option<int>)
    ensures r.Some? <==> DigitGroups(Unsigned(Strip(s)))
    ensures r.Some? ==> r.value == SignOf(Strip(s)) * GroupsValue(Unsigned(Strip(s)))
  {
    var t := Strip(s);
    var u := Unsigned(t);
    if DigitGroups(u) then Some(SignOf(t) * GroupsValue(u)) else None
  }

  /** `int(str(i)) == i` */
  lemma {:induction false} IntToStringRoundTrip(i: int)
    ensures ParseInt(IntToString(i)) == Some(i)
  {
    var s := IntToString(i);
    var d := NatToString(if i < 0 then -i else i);
    assert !IsSpace(d[0]) && !IsSpace(d[|d| - 1]);
    if i < 0 {
      assert s == "-" + d;
    }
    StripFixed(s);
    assert Unsigned(s) == d;
    DigitsAreGroups(d);
  }

  /** A leading zero adds nothing to the value of a digit string. */
  lemma {:induction false} LeadingZeroValue(s: string)
    requires DigitsOnly(s)
    ensures DigitsOnly("0" + s) && DigitsValue("0" + s) == DigitsValue(s)
    decreases |s|
  {
    var z := "0" + s;
    assert DigitsOnly(z) by {
      forall i | 0 <= i < |z| ensures IsDigit(z[i]) {
        if i > 0 { assert z[i] == s[i - 1]; }
      }
    }
    if s != [] {
      var n := |s| - 1;
      assert z[..|z| - 1] == "0" + s[..n];
      LeadingZeroValue(s[..n]);
    }
  }

  /** `int("0" + s) == int(s)` for a digit string: "007" and "7" read alike. */
  lemma ParseIntLeadingZero(s: string)
    requires AllDigits(s)
    ensures ParseInt("0" + s) == ParseInt(s) == Some(DigitsValue(s))
  {
    var z := "0" + s;
    LeadingZeroValue(s);
    ParseIntDigits(s);
    ParseIntDigits(z);
  }

  /** A digit string reads as its decimal value. */
  lemma ParseIntDigits(s: string)
    requires AllDigits(s)
    ensures ParseInt(s) == Some(DigitsValue(s))
  {
    UnsignedDigits(s);
    StripFixed(s);
    DigitsAreGroups(s);
  }

  /** An underscore between two digit runs does not change the number: `int("1_000") == 1000`. */
  lemma ParseIntGrouped(a: string, b: string)
    requires AllDigits(a) && AllDigits(b)
    ensures ParseInt(a + "_" + b) == ParseInt(a + b) == Some(DigitsValue(a + b))
  {
    var s := a + "_" + b;
    assert AllDigits(a + b) by {
      forall i | 0 <= i < |a + b| ensures IsDigit((a + b)[i]) {
        if i >= |a| { assert (a + b)[i] == b[i - |a|]; }
      }
    }
    ParseIntDigits(a + b);
    GroupedDigits(a, b);
    assert s[0] == a[0];
    UnsignedDigits(s);
    StripFixed(s);
  }

  lemma UnsignedDigits(s: string)
    requires |s| > 0 && IsDigit(s[0])
    ensures Unsigned(s) == s && SignOf(s) == 1
  {
  }

  /** `s.splitlines()` for "\n"-terminated lines: no trailing empty line, "" gives []. */
  function SplitLines(s: string): (r: seq<string>)
    ensures forall k :: 0 <= k < |r| ==> !Contains(r[k], "\n")
    decreases |s|
  {
    if s == [] then []
    else match Find(s, "\n", 0)
      case None => [s]
      case Some(i) =>
        assert !Contains(s[..i], "\n") by {
          forall j | 0 <= j ensures !OccursAt(s[..i], "\n", j) {
            if j + 1 <= i {
              assert !OccursAt(s, "\n", j);
              assert s[..i][j..j + 1] == s[j..j + 1];
            }
          }
        }
        [s[..i]] + SplitLines(s[i + 1..])
  }

  /** `sep.join(lines)` */
  function Join(lines: seq<string>, sep: string): string
    decreases |lines|
  {
    if lines == [] then ""
    else if |lines| == 1 then lines[0]
    else lines[0] + sep + Join(lines[1..], sep)
  }

  /**
   * Joining the lines with "\n" gives the text back; a final "\n"
   * ends the last line and is the only thing lost.
   */
  lemma {:induction false} SplitLinesJoin(s: string)
    ensures s == [] || s[|s| - 1] != '\n' ==> Join(SplitLines(s), "\n") == s
    ensures s != [] && s[|s| - 1] == '\n' ==> Join(SplitLines(s), "\n") + "\n" == s
    decreases |s|
  {
    if s != [] {
      var brk := SplitLinesFirstBreak(s);
      if brk.Some? {
        var i := brk.value;
        var pre, rest := s[..i], s[i + 1..];
        BreakSplits(s, i);
        if rest == [] {
          assert Join([pre], "\n") == pre;
        } else {
          SplitLinesJoin(rest);
          SplitLinesNonEmpty(rest);
          JoinCons(pre, SplitLines(rest), "\n");
          assert s[|s| - 1] == rest[|rest| - 1];
        }
      }
    }
  }

  /**
   * A text without a line break is one line, which does not end in one;
   * otherwise it splits at its first line break into the line before it
   * and the lines of the rest.
   */
  lemma SplitLinesFirstBreak(s: string) returns (brk: Option<nat>)
    requires s != []
    ensures brk.None? ==> SplitLines(s) == [s] && s[|s| - 1] != '\n'
    ensures brk.Some? ==> brk.value < |s| && s[brk.value] == '\n'
    ensures brk.Some? ==> SplitLines(s) == [s[..brk.value]] + SplitLines(s[brk.value + 1..])
  {
    brk := Find(s, "\n", 0);
    if brk.None? {
      assert !OccursAt(s, "\n", |s| - 1);
      assert s[|s| - 1..|s|] == [s[|s| - 1]];
    } else {
      assert s[brk.value..brk.value + 1][0] == s[brk.value];
    }
  }

  /** A text is the part before a line break, the break and the part after it. */
  lemma BreakSplits(s: string, i: nat)
    requires i < |s| && s[i] == '\n'
    ensures s == s[..i] + "\n" + s[i + 1..]
  {
    assert s == s[..i] + [s[i]] + s[i + 1..];
  }

  /** Joining one more line in front adds it and a separator. */
  lemma JoinCons(line: string, lines: seq<string>, sep: string)
    requires lines != []
    ensures Join([line] + lines, sep) == line + sep + Join(lines, sep)
  {
    assert ([line] + lines)[1..] == lines;
  }

  lemma SplitLinesNonEmpty(s: string)
    requires s != []
    ensures SplitLines(s) != []
  {
  }
}
