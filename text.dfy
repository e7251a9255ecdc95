/**
 * The handful of Python `str` operations the scraper and the grading session rely on,
 * written out over `seq<char>`: `isspace`/`strip`, `split`, `partition`,
 * `rpartition`, `in`, `int()`, `str()` of an integer, `rjust`, `join`,
 * `splitlines`, ASCII case folding and Python's slice notation.
 */
module Text {
  import opened Base

  /** Python's `str.isspace()` for one character. */
  predicate IsSpace(c: char) {
    var n := c as int;
    n == 0x20 || 0x09 <= n <= 0x0D || 0x1C <= n <= 0x1F || n == 0x85 || n == 0xA0 || n == 0x1680
    || 0x2000 <= n <= 0x200A || n == 0x2028 || n == 0x2029 || n == 0x202F || n == 0x205F || n == 0x3000
  }

  /** The characters `str.splitlines()` breaks at (`\r\n` counts as one break). */
  predicate IsLineBreak(c: char) {
    var n := c as int;
    0x0A <= n <= 0x0D || 0x1C <= n <= 0x1E || n == 0x85 || n == 0x2028 || n == 0x2029
  }

  predicate IsDigit(c: char) { '0' <= c <= '9' }

  predicate AllDigits(s: string) { forall i :: 0 <= i < |s| ==> IsDigit(s[i]) }

  predicate NoLineBreak(s: string) { forall i :: 0 <= i < |s| ==> !IsLineBreak(s[i]) }

  predicate Excludes(s: string, c: char) { forall i :: 0 <= i < |s| ==> s[i] != c }

  // ---------------------------------------------------------------------
  // strip

  function LStrip(s: string): (r: string)
    ensures |r| <= |s| && r == s[|s| - |r|..]
    ensures |r| > 0 ==> !IsSpace(r[0])
  {
    if |s| > 0 && IsSpace(s[0]) then LStrip(s[1..]) else s
  }

  function RStrip(s: string): (r: string)
    ensures |r| <= |s| && r == s[..|r|]
    ensures |r| > 0 ==> !IsSpace(r[|r| - 1])
  {
    if |s| > 0 && IsSpace(s[|s| - 1]) then RStrip(s[..|s| - 1]) else s
  }

  /** Python's `s.strip()`. */
  function Strip(s: string): string {
    RStrip(LStrip(s))
  }

  /** Number of leading whitespace characters: the end of a match of `^\s*`. */
  function LeadingSpace(s: string): (n: nat)
    ensures n <= |s|
    ensures forall i :: 0 <= i < n ==> IsSpace(s[i])
    ensures n < |s| ==> !IsSpace(s[n])
  {
    if |s| > 0 && IsSpace(s[0]) then 1 + LeadingSpace(s[1..]) else 0
  }

  /** A string whose end characters are not whitespace is its own strip. */
  lemma StripUnchanged(s: string)
    requires |s| > 0 && !IsSpace(s[0]) && !IsSpace(s[|s| - 1])
    ensures Strip(s) == s
  {
  }

  // ---------------------------------------------------------------------
  // split / join

  /** Python's `s.split(sep)` for a one-character separator. */
  function Split(s: string, sep: char): (parts: seq<string>)
    ensures |parts| >= 1
  {
    if |s| == 0 then [""]
    else
      var rest := Split(s[1..], sep);
      if s[0] == sep then [""] + rest else [[s[0]] + rest[0]] + rest[1..]
  }

  /** Python's `sep.join(parts)`. */
  function Join(parts: seq<string>, sep: string): string {
    if |parts| == 0 then ""
    else if |parts| == 1 then parts[0]
    else parts[0] + sep + Join(parts[1..], sep)
  }

  lemma {:induction false} SplitNoSeparator(s: string, sep: char)
    requires Excludes(s, sep)
    ensures Split(s, sep) == [s]
  {
    if |s| > 0 {
      SplitNoSeparator(s[1..], sep);
      assert [s[0]] + s[1..] == s;
    }
  }

  /** Splitting `a + sep + b` where `a` holds no separator peels `a` off. */
  lemma {:induction false} SplitPeel(a: string, sep: char, b: string)
    requires Excludes(a, sep)
    ensures Split(a + [sep] + b, sep) == [a] + Split(b, sep)
  {
    if |a| == 0 {
      assert a + [sep] + b == [sep] + b;
      assert ([sep] + b)[1..] == b;
    } else {
      SplitPeel(a[1..], sep, b);
      assert (a + [sep] + b)[1..] == a[1..] + [sep] + b;
      assert [a[0]] + a[1..] == a;
    }
  }

  /** `split` undoes `join` when no part holds the separator. */
  lemma {:induction false} SplitJoin(parts: seq<string>, sep: char)
    requires |parts| >= 1
    requires forall k :: 0 <= k < |parts| ==> Excludes(parts[k], sep)
    ensures Split(Join(parts, [sep]), sep) == parts
  {
    if |parts| == 1 {
      SplitNoSeparator(parts[0], sep);
    } else {
      SplitJoin(parts[1..], sep);
      SplitPeel(parts[0], sep, Join(parts[1..], [sep]));
      assert parts == [parts[0]] + parts[1..];
    }
  }

  /** `join` undoes `split`, and no part of a split holds the separator. */
  lemma {:induction false} JoinSplit(s: string, sep: char)
    ensures Join(Split(s, sep), [sep]) == s
    ensures forall k :: 0 <= k < |Split(s, sep)| ==> Excludes(Split(s, sep)[k], sep)
  {
    if |s| > 0 {
      JoinSplit(s[1..], sep);
      var rest := Split(s[1..], sep);
      if s[0] != sep {
        var parts := Split(s, sep);
        assert parts[0] == [s[0]] + rest[0];
        assert parts[1..] == rest[1..];
        if |rest| > 1 {
          assert rest == [rest[0]] + rest[1..];
        }
        assert [s[0]] + s[1..] == s;
        forall k | 0 <= k < |parts| ensures Excludes(parts[k], sep) {
          if k > 0 { assert parts[k] == rest[k]; }
        }
      } else {
        assert [sep] + s[1..] == s;
      }
    }
  }

  /** A join holds a character only if a part or the separator does. */
  lemma {:induction false} JoinExcludes(parts: seq<string>, sep: string, c: char)
    requires Excludes(sep, c)
    requires forall k :: 0 <= k < |parts| ==> Excludes(parts[k], c)
    ensures Excludes(Join(parts, sep), c)
  {
    if |parts| > 1 {
      JoinExcludes(parts[1..], sep, c);
    }
  }

  // ---------------------------------------------------------------------
  // partition / rpartition / substring

  /** Index of the first `c` in `s`, or `|s|` when there is none. */
  function Find(s: string, c: char): (k: nat)
    ensures k <= |s| && Excludes(s[..k], c)
    ensures k < |s| ==> s[k] == c
  {
    if |s| == 0 then 0 else if s[0] == c then 0 else 1 + Find(s[1..], c)
  }

  /** Index just after the last `c` in `s`, or 0 when there is none. */
  function RFindAfter(s: string, c: char): (k: nat)
    ensures k <= |s| && Excludes(s[k..], c)
    ensures k > 0 ==> s[k - 1] == c
  {
    if |s| == 0 then 0
    else if s[|s| - 1] == c then |s|
    else RFindAfter(s[..|s| - 1], c)
  }

  /** Python's `s.partition(c)`: text before the first `c`, whether it was found, text after it. */
  function Partition(s: string, c: char): (string, bool, string) {
    var k := Find(s, c);
    if k == |s| then (s, false, "") else (s[..k], true, s[k + 1..])
  }

  /** The last field of Python's `s.rpartition(c)`: the text after the last `c`, or all of `s`. */
  function AfterLast(s: string, c: char): string {
    s[RFindAfter(s, c)..]
  }

  /** `(pre + c + s).rpartition(c)[-1] == s` when `s` holds no `c`. */
  lemma AfterLastOf(pre: string, c: char, s: string)
    requires Excludes(s, c)
    ensures AfterLast(pre + [c] + s, c) == s
  {
    var x := pre + [c] + s;
    var k := RFindAfter(x, c);
    assert x[|pre|] == c && forall i :: |pre| < i < |x| ==> x[i] == s[i - |pre| - 1];
    assert k == |pre| + 1;
    assert x[k..] == s;
  }

  /** Python's `sub in s` for strings. */
  predicate Contains(s: string, sub: string)
    decreases |s|
  {
    |sub| <= |s| && (s[..|sub|] == sub || Contains(s[1..], sub))
  }

  /** Python's `s.endswith(c)` for one character. */
  predicate EndsWith(s: string, c: char) {
    |s| > 0 && s[|s| - 1] == c
  }

  // ---------------------------------------------------------------------
  // int() and str() of integers

  function DigitsValue(s: string): nat
    requires AllDigits(s)
  {
    if |s| == 0 then 0 else DigitsValue(s[..|s| - 1]) * 10 + (s[|s| - 1] as int - '0' as int)
  }

  /** The value of a non-empty run of decimal digits, `None` for any other string. */
  function Digits(s: string): Option<nat> {
    if |s| == 0 || !IsDigit(s[|s| - 1]) then None
    else if |s| == 1 then Some(s[0] as int - '0' as int)
    else
      match Digits(s[..|s| - 1])
      case None => None
      case Some(v) => Some(v * 10 + (s[|s| - 1] as int - '0' as int))
  }

  /** `Digits` accepts exactly the non-empty digit strings, with their decimal value. */
  lemma {:induction false} DigitsIff(s: string)
    ensures Digits(s).Some? <==> |s| > 0 && AllDigits(s)
    ensures Digits(s).Some? ==> Digits(s).value == DigitsValue(s)
  {
    if |s| > 1 {
      var init := s[..|s| - 1];
      DigitsIff(init);
      assert AllDigits(s) ==> AllDigits(init);
      if Digits(init).Some? && IsDigit(s[|s| - 1]) {
        assert forall i :: 0 <= i < |s| - 1 ==> s[i] == init[i];
      }
    } else if |s| == 1 {
      assert DigitsValue(s[..0]) == 0;
    }
  }

  /** Python's `int(s)` on a string: surrounding whitespace, an optional sign, decimal digits. */
  function ParseInt(s: string): Option<int> {
    var t := Strip(s);
    if |t| > 1 && (t[0] == '-' || t[0] == '+') then
      match Digits(t[1..])
      case None => None
      case Some(v) => var w: int := v; Some(if t[0] == '-' then -w else w)
    else match Digits(t) case None => None case Some(v) => Some(v)
  }

  /** Python's `str(n)` for a natural number: its decimal digits, no leading zero. */
  function NatToString(n: nat): (r: string)
    ensures |r| > 0 && AllDigits(r) && DigitsValue(r) == n
    ensures |r| > 1 ==> r[0] != '0'
  {
    if n < 10 then [(('0' as int) + n) as char]
    else
      var r := NatToString(n / 10) + [(('0' as int) + n % 10) as char];
      assert r[..|r| - 1] == NatToString(n / 10);
      r
  }

  /** Python's `str(n)` for an integer. */
  function IntToString(n: int): (r: string)
    ensures |r| > 0 && !IsSpace(r[0]) && !IsSpace(r[|r| - 1])
    ensures forall i :: 0 <= i < |r| ==> IsDigit(r[i]) || (i == 0 && r[i] == '-')
  {
    if n < 0 then "-" + NatToString(-n) else NatToString(n)
  }

  /** `int(str(n)) == n`. */
  lemma ParseIntToString(n: int)
    ensures ParseInt(IntToString(n)) == Some(n)
  {
    var s := IntToString(n);
    StripUnchanged(s);
    if n < 0 {
      assert s[1..] == NatToString(-n);
      DigitsIff(s[1..]);
    } else {
      DigitsIff(s);
    }
  }

  function Zeros(k: nat): (r: string)
    ensures |r| == k && forall i :: 0 <= i < k ==> r[i] == '0'
  {
    seq(k, _ => '0')
  }

  /** Python's `str(n).zfill(width)`: the digits of `n`, led by zeros up to `width` characters. */
  function ZFill(n: nat, width: nat): (r: string)
    ensures |r| == if width > |NatToString(n)| then width else |NatToString(n)|
    ensures r[|r| - |NatToString(n)|..] == NatToString(n)
    ensures forall i :: 0 <= i < |r| - |NatToString(n)| ==> r[i] == '0'
  {
    var d := NatToString(n);
    (if width > |d| then Zeros(width - |d|) else "") + d
  }

  /** A leading zero keeps a digit string one and does not change its value. */
  lemma {:induction false} LeadingZero(s: string)
    requires AllDigits(s)
    ensures AllDigits("0" + s) && DigitsValue("0" + s) == DigitsValue(s)
  {
    assert forall i :: 1 <= i < |s| + 1 ==> ("0" + s)[i] == s[i - 1];
    if |s| > 0 {
      var init := s[..|s| - 1];
      assert ("0" + s)[..|s|] == "0" + init;
      LeadingZero(init);
    } else {
      assert ("0" + s)[..0] == "";
    }
  }

  /** Leading zeros keep a digit string one and do not change its value. */
  lemma {:induction false} LeadingZeros(k: nat, s: string)
    requires AllDigits(s)
    ensures AllDigits(Zeros(k) + s) && DigitsValue(Zeros(k) + s) == DigitsValue(s)
  {
    if k > 0 {
      LeadingZeros(k - 1, s);
      assert Zeros(k) + s == "0" + (Zeros(k - 1) + s);
      LeadingZero(Zeros(k - 1) + s);
    } else {
      assert Zeros(k) + s == s;
    }
  }

  lemma ZFillValue(n: nat, width: nat)
    ensures AllDigits(ZFill(n, width)) && DigitsValue(ZFill(n, width)) == n
  {
    var d := NatToString(n);
    if width > |d| {
      LeadingZeros(width - |d|, d);
    } else {
      assert ZFill(n, width) == d;
    }
  }

  /** `int(str(n).zfill(width)) == n`: zero padding is read back as the number. */
  lemma ParseIntZFill(n: nat, width: nat)
    ensures ParseInt(ZFill(n, width)) == Some(n)
  {
    ZFillValue(n, width);
    ParseIntDigits(ZFill(n, width));
  }

  /** `int(s)` of a non-empty digit string is its decimal value, leading zeros and all. */
  lemma ParseIntDigits(s: string)
    requires |s| > 0 && AllDigits(s)
    ensures ParseInt(s) == Some(DigitsValue(s))
  {
    assert IsDigit(s[0]) && IsDigit(s[|s| - 1]);
    StripUnchanged(s);
    DigitsIff(s);
  }

  lemma EmptyIsNotInt()
    ensures ParseInt("") == None
  {
  }

  // ---------------------------------------------------------------------
  // rjust, case folding, splitlines

  function Spaces(n: nat): (r: string)
    ensures |r| == n && forall i :: 0 <= i < n ==> r[i] == ' '
  {
    if n == 0 then "" else " " + Spaces(n - 1)
  }

  /** Python's `s.rjust(width)`: left-padded with spaces to at least `width` characters. */
  function RJust(s: string, width: nat): (r: string)
    ensures |r| == if |s| >= width then |s| else width
    ensures r[|r| - |s|..] == s
    ensures forall i :: 0 <= i < |r| - |s| ==> r[i] == ' '
  {
    if |s| >= width then s else Spaces(width - |s|) + s
  }

  function FoldChar(c: char): char {
    if 'A' <= c <= 'Z' then (c as int + 32) as char else c
  }

  /** Case folding (`casefold`, `lower`) restricted to ASCII letters. */
  function Fold(s: string): (r: string)
    ensures |r| == |s| && forall i :: 0 <= i < |s| ==> r[i] == FoldChar(s[i])
  {
    if |s| == 0 then "" else [FoldChar(s[0])] + Fold(s[1..])
  }

  /** Index of the first line break in `s`, or `|s|`. */
  function FirstBreak(s: string): (k: nat)
    ensures k <= |s| && NoLineBreak(s[..k])
    ensures k < |s| ==> IsLineBreak(s[k])
  {
    if |s| == 0 then 0 else if IsLineBreak(s[0]) then 0 else 1 + FirstBreak(s[1..])
  }

  /** Python's `s.splitlines()`. */
  function SplitLines(s: string): seq<string>
    decreases |s|
  {
    if |s| == 0 then []
    else
      var k := FirstBreak(s);
      if k == |s| then [s]
      else
        var next := if s[k] == '\r' && k + 1 < |s| && s[k + 1] == '\n' then k + 2 else k + 1;
        [s[..k]] + SplitLines(s[next..])
  }

  lemma FirstBreakOfLine(line: string, rest: string)
    requires NoLineBreak(line)
    ensures FirstBreak(line + rest) >= |line|
    ensures |rest| > 0 && IsLineBreak(rest[0]) ==> FirstBreak(line + rest) == |line|
  {
    if |line| > 0 {
      assert (line + rest)[1..] == line[1..] + rest;
      FirstBreakOfLine(line[1..], rest);
    }
  }

  /** No line that `splitlines` returns holds a line break, and a non-empty text has at least one line. */
  lemma {:induction false} SplitLinesNoBreak(s: string)
    ensures |s| > 0 <==> |SplitLines(s)| > 0
    ensures forall k :: 0 <= k < |SplitLines(s)| ==> NoLineBreak(SplitLines(s)[k])
    decreases |s|
  {
    if |s| > 0 {
      var k := FirstBreak(s);
      if k < |s| {
        var next := if s[k] == '\r' && k + 1 < |s| && s[k + 1] == '\n' then k + 2 else k + 1;
        SplitLinesNoBreak(s[next..]);
        assert SplitLines(s) == [s[..k]] + SplitLines(s[next..]);
      }
    }
  }

  /** `splitlines` undoes a newline `join` of lines without breaks whose last line is not empty. */
  lemma {:induction false} SplitLinesJoin(lines: seq<string>)
    requires |lines| >= 1 && |lines[|lines| - 1]| > 0
    requires forall k :: 0 <= k < |lines| ==> NoLineBreak(lines[k])
    ensures SplitLines(Join(lines, "\n")) == lines
  {
    var s := Join(lines, "\n");
    if |lines| == 1 {
      FirstBreakOfLine(lines[0], "");
      assert lines[0] + "" == lines[0];
    } else {
      var tail := Join(lines[1..], "\n");
      assert s == lines[0] + ("\n" + tail);
      FirstBreakOfLine(lines[0], "\n" + tail);
      assert s[|lines[0]|] == '\n';
      assert s[|lines[0]| + 1..] == tail;
      assert s[..|lines[0]|] == lines[0];
      SplitLinesJoin(lines[1..]);
      assert lines == [lines[0]] + lines[1..];
    }
  }

  // ---------------------------------------------------------------------
  // Python slices

  /** Where a Python slice bound `i` lands in a sequence of length `n`. */
  function SliceIndex(i: int, n: nat): (k: nat)
    ensures k <= n
  {
    if i < 0 then (if n + i < 0 then 0 else n + i) else if i > n then n else i
  }

  /** Python's `s[lo:hi]`, with negative bounds counted from the end. */
  function Slice<T>(s: seq<T>, lo: int, hi: int): (r: seq<T>)
    ensures |r| <= |s|
  {
    var a, b := SliceIndex(lo, |s|), SliceIndex(hi, |s|);
    if a < b then s[a..b] else []
  }

  /** Python's `s[:hi]`. */
  function Prefix<T>(s: seq<T>, hi: int): (r: seq<T>)
    ensures |r| <= |s|
  {
    Slice(s, 0, hi)
  }
}
