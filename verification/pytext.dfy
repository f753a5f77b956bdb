/**
 * Python `str` primitives the pipeline relies on, written out exactly:
 * `isspace`, `strip`, `splitlines`, `join`, `split`, `startswith`/`endswith`,
 * `int(...)`, `str(int)`, `os.path.splitext` and `os.path.basename` (POSIX).
 */
module PyText {
  import opened Wrappers

  /** `c.isspace()`: the Unicode whitespace characters Python recognises. */
  predicate IsSpace(c: char) {
    || c == ' '
    || ('\t' <= c <= '\r')
    || ('\U{1c}' <= c <= '\U{1f}')
    || c == '\U{85}' || c == '\U{a0}' || c == '\U{1680}'
    || ('\U{2000}' <= c <= '\U{200a}')
    || c == '\U{2028}' || c == '\U{2029}' || c == '\U{202f}' || c == '\U{205f}' || c == '\U{3000}'
  }

  /** The characters at which `str.splitlines()` ends a line. */
  predicate IsLineBreak(c: char) {
    || c == '\n' || c == '\r' || c == '\U{b}' || c == '\U{c}'
    || ('\U{1c}' <= c <= '\U{1e}')
    || c == '\U{85}' || c == '\U{2028}' || c == '\U{2029}'
  }

  predicate IsAsciiDigit(c: char) {
    '0' <= c <= '9'
  }

  /** `s.strip() == ""` */
  predicate IsBlank(s: string) {
    forall i :: 0 <= i < |s| ==> IsSpace(s[i])
  }

  predicate NonBlank(s: string) {
    !IsBlank(s)
  }

  predicate NoBreaks(s: string) {
    forall i :: 0 <= i < |s| ==> !IsLineBreak(s[i])
  }

  predicate StartsWith(s: string, prefix: string) {
    |prefix| <= |s| && s[..|prefix|] == prefix
  }

  predicate EndsWith(s: string, suffix: string) {
    |suffix| <= |s| && s[|s| - |suffix|..] == suffix
  }

  lemma ConcatAffixes(a: string, b: string)
    ensures StartsWith(a + b, a) && EndsWith(a + b, b)
  {
    assert (a + b)[..|a|] == a;
    assert (a + b)[|a|..] == b;
  }

  lemma MiddleSlice(a: string, m: string, z: string)
    ensures (a + m + z)[|a|..|a + m + z| - |z|] == m
  {
    assert (a + m + z)[|a|..|a + m + z| - |z|] == (a + m + z)[|a|..|a| + |m|];
  }

  /** `sub in s` for strings: `sub` occurs in `s` at some position. */
  predicate Contains(s: string, sub: string) {
    exists i :: 0 <= i <= |s| && StartsWith(s[i..], sub)
  }

  /** `s.startswith(c) and s.endswith(c)` for a one-character `c`. */
  predicate BoundedBy(s: string, c: char) {
    |s| > 0 && s[0] == c && s[|s| - 1] == c
  }

  // ---------------------------------------------------------------- strip

  function LeadingSpaces(s: string): (n: nat)
    ensures n <= |s|
    ensures forall i :: 0 <= i < n ==> IsSpace(s[i])
    ensures n < |s| ==> !IsSpace(s[n])
  {
    if |s| > 0 && IsSpace(s[0]) then 1 + LeadingSpaces(s[1..]) else 0
  }

  function TrailingSpaces(s: string): (n: nat)
    ensures n <= |s|
    ensures forall i :: |s| - n <= i < |s| ==> IsSpace(s[i])
    ensures n < |s| ==> !IsSpace(s[|s| - n - 1])
  {
    if |s| > 0 && IsSpace(s[|s| - 1]) then 1 + TrailingSpaces(s[..|s| - 1]) else 0
  }

  /** `s.strip()`: the text between the leading and the trailing whitespace. */
  function Strip(s: string): (r: string)
    ensures |r| <= |s|
    ensures r == "" <==> IsBlank(s)
    ensures r != "" ==> !IsSpace(r[0]) && !IsSpace(r[|r| - 1])
    ensures LeadingSpaces(s) + |r| <= |s| && r == s[LeadingSpaces(s)..LeadingSpaces(s) + |r|]
    ensures IsBlank(s[LeadingSpaces(s) + |r|..])
  {
    var a := LeadingSpaces(s);
    if a == |s| then ""
    else
      var t := TrailingSpaces(s);
      assert t < |s| - a by {
        assert !IsSpace(s[a]);
      }
      s[a..|s| - t]
  }

  /** A string with no whitespace at either end is its own strip. */
  lemma StripNoOp(s: string)
    requires s != "" && !IsSpace(s[0]) && !IsSpace(s[|s| - 1])
    ensures Strip(s) == s
  {
  }

  lemma StripIdempotent(s: string)
    ensures Strip(Strip(s)) == Strip(s)
  {
    if Strip(s) != "" {
      StripNoOp(Strip(s));
    }
  }

  // ------------------------------------------------ strip of one character

  function LeadingChars(s: string, c: char): (n: nat)
    ensures n <= |s|
    ensures forall i :: 0 <= i < n ==> s[i] == c
    ensures n < |s| ==> s[n] != c
  {
    if |s| > 0 && s[0] == c then 1 + LeadingChars(s[1..], c) else 0
  }

  function TrailingChars(s: string, c: char): (n: nat)
    ensures n <= |s|
    ensures forall i :: |s| - n <= i < |s| ==> s[i] == c
    ensures n < |s| ==> s[|s| - n - 1] != c
  {
    if |s| > 0 && s[|s| - 1] == c then 1 + TrailingChars(s[..|s| - 1], c) else 0
  }

  /** `s.strip(c)` for a single character `c` (as in `row.strip("|")`). */
  function StripChar(s: string, c: char): (r: string)
    ensures r != "" ==> r[0] != c && r[|r| - 1] != c
    ensures LeadingChars(s, c) + |r| <= |s|
    ensures r == s[LeadingChars(s, c)..LeadingChars(s, c) + |r|]
  {
    var a := LeadingChars(s, c);
    if a == |s| then ""
    else
      var t := TrailingChars(s, c);
      assert t < |s| - a by {
        assert s[a] != c;
      }
      s[a..|s| - t]
  }

  // ------------------------------------------------------------------ join

  /** `sep.join(xs)` */
  function Join(sep: string, xs: seq<string>): string {
    if |xs| == 0 then ""
    else if |xs| == 1 then xs[0]
    else xs[0] + sep + Join(sep, xs[1..])
  }

  lemma JoinCons(sep: string, x: string, xs: seq<string>)
    requires xs != []
    ensures Join(sep, [x] + xs) == x + sep + Join(sep, xs)
  {
    assert ([x] + xs)[1..] == xs;
  }

  lemma {:induction false} JoinConcat(sep: string, xs: seq<string>, ys: seq<string>)
    requires xs != [] && ys != []
    ensures Join(sep, xs + ys) == Join(sep, xs) + sep + Join(sep, ys)
  {
    if |xs| == 1 {
      assert xs + ys == [xs[0]] + ys;
      JoinCons(sep, xs[0], ys);
    } else {
      assert xs + ys == [xs[0]] + (xs[1..] + ys);
      JoinCons(sep, xs[0], xs[1..] + ys);
      JoinConcat(sep, xs[1..], ys);
      JoinCons(sep, xs[0], xs[1..]);
      assert [xs[0]] + xs[1..] == xs;
    }
  }

  lemma JoinAppend(sep: string, xs: seq<string>, y: string)
    requires xs != []
    ensures Join(sep, xs + [y]) == Join(sep, xs) + sep + y
  {
    JoinConcat(sep, xs, [y]);
  }

  /** Joining strings that are all blank with a blank separator gives a blank string. */
  lemma {:induction false} JoinBlank(sep: string, xs: seq<string>)
    requires IsBlank(sep)
    requires forall k :: 0 <= k < |xs| ==> IsBlank(xs[k])
    ensures IsBlank(Join(sep, xs))
  {
    if |xs| > 1 {
      JoinBlank(sep, xs[1..]);
      var j := Join(sep, xs[1..]);
      var all := xs[0] + sep + j;
      forall i | 0 <= i < |all|
        ensures IsSpace(all[i])
      {
        if i < |xs[0]| {
          assert all[i] == xs[0][i];
        } else if i < |xs[0]| + |sep| {
          assert all[i] == sep[i - |xs[0]|];
        } else {
          assert all[i] == j[i - |xs[0]| - |sep|];
        }
      }
    }
  }

  // ------------------------------------------------------------ splitlines

  function FirstBreak(s: string): (i: nat)
    ensures i <= |s|
    ensures forall k :: 0 <= k < i ==> !IsLineBreak(s[k])
    ensures i < |s| ==> IsLineBreak(s[i])
  {
    if |s| == 0 || IsLineBreak(s[0]) then 0 else 1 + FirstBreak(s[1..])
  }

  /** Index just past the line boundary at `i` ("\r\n" counts as one boundary). */
  function BreakEnd(s: string, i: nat): (j: nat)
    requires i < |s|
    ensures i < j <= |s|
  {
    if s[i] == '\r' && i + 1 < |s| && s[i + 1] == '\n' then i + 2 else i + 1
  }

  /** `s.splitlines()`: the lines of `s`, boundaries removed; no trailing empty line. */
  function SplitLines(s: string): (r: seq<string>)
    ensures forall k :: 0 <= k < |r| ==> NoBreaks(r[k])
    ensures r == [] <==> s == ""
    decreases |s|
  {
    if s == "" then []
    else
      var i := FirstBreak(s);
      if i == |s| then [s]
      else [s[..i]] + SplitLines(s[BreakEnd(s, i)..])
  }

  lemma {:induction false} FirstBreakAfterPrefix(a: string, b: string)
    requires NoBreaks(a)
    ensures FirstBreak(a + b) == |a| + FirstBreak(b)
  {
    if a != [] {
      assert (a + b)[1..] == a[1..] + b;
      FirstBreakAfterPrefix(a[1..], b);
    } else {
      assert a + b == b;
    }
  }

  /**
   * `"\n".join(ls).splitlines() == ls` when no line contains a boundary and the
   * last line is not empty.
   */
  lemma {:induction false} SplitLinesOfJoin(ls: seq<string>)
    requires forall k :: 0 <= k < |ls| ==> NoBreaks(ls[k])
    requires ls == [] || ls[|ls| - 1] != ""
    ensures SplitLines(Join("\n", ls)) == ls
  {
    if |ls| == 1 {
      FirstBreakAfterPrefix(ls[0], "");
      assert ls[0] + "" == ls[0];
    } else if |ls| > 1 {
      var rest := Join("\n", ls[1..]);
      assert Join("\n", ls) == ls[0] + ("\n" + rest);
      SplitLinesCons(ls[0], rest);
      SplitLinesOfJoin(ls[1..]);
      assert [ls[0]] + ls[1..] == ls;
    }
  }

  /** A line without breaks, a "\n", then more text: the line comes first. */
  lemma SplitLinesCons(l: string, rest: string)
    requires NoBreaks(l)
    ensures SplitLines(l + ("\n" + rest)) == [l] + SplitLines(rest)
  {
    var s := l + ("\n" + rest);
    FirstBreakAfterPrefix(l, "\n" + rest);
    assert FirstBreak(s) == |l|;
    assert s[..|l|] == l;
    assert BreakEnd(s, |l|) == |l| + 1;
    assert s[|l| + 1..] == rest;
  }

  // ----------------------------------------------------------------- split

  function IndexOfChar(s: string, c: char): (i: nat)
    ensures i <= |s|
    ensures forall k :: 0 <= k < i ==> s[k] != c
    ensures i < |s| ==> s[i] == c
  {
    if |s| == 0 || s[0] == c then 0 else 1 + IndexOfChar(s[1..], c)
  }

  /** `s.count(c)` for a single character. */
  function CountChar(s: string, c: char): (n: nat)
    ensures n == 0 <==> c !in s
  {
    if s == [] then 0 else (if s[0] == c then 1 else 0) + CountChar(s[1..], c)
  }

  lemma {:induction false} CountCharConcat(a: string, b: string, c: char)
    ensures CountChar(a + b, c) == CountChar(a, c) + CountChar(b, c)
  {
    if a == [] {
      assert a + b == b;
    } else {
      assert (a + b)[1..] == a[1..] + b;
      CountCharConcat(a[1..], b, c);
    }
  }

  /** `s.split(c)` for a one-character separator: one more piece than there are separators. */
  function Split(s: string, c: char): (r: seq<string>)
    ensures |r| == CountChar(s, c) + 1
    ensures forall k :: 0 <= k < |r| ==> c !in r[k]
    ensures Join([c], r) == s
    decreases |s|
  {
    var i := IndexOfChar(s, c);
    if i == |s| then [s]
    else
      var rest := Split(s[i + 1..], c);
      JoinCons([c], s[..i], rest);
      assert s == s[..i] + [c] + s[i + 1..];
      assert c !in s[..i];
      assert s == s[..i] + ([c] + s[i + 1..]);
      assert ([c] + s[i + 1..])[1..] == s[i + 1..];
      CountCharConcat(s[..i], [c] + s[i + 1..], c);
      [s[..i]] + rest
  }

  /** `xs.index(x)`: the first position of `x`, or `None` (Python raises ValueError). */
  function IndexOf<T(==)>(xs: seq<T>, x: T): (r: Option<nat>)
    ensures r.None? <==> x !in xs
    ensures r.Some? ==> r.value < |xs| && xs[r.value] == x
    ensures r.Some? ==> forall j :: 0 <= j < r.value ==> xs[j] != x
  {
    if |xs| == 0 then None
    else if xs[0] == x then Some(0)
    else match IndexOf(xs[1..], x)
      case None => None
      case Some(j) => Some(j + 1)
  }

  // ------------------------------------------------------------- lower case

  /** `s.replace(a, b)` for single characters. */
  function ReplaceChar(s: string, a: char, b: char): (r: string)
    ensures |r| == |s|
    ensures forall i :: 0 <= i < |s| ==> r[i] == (if s[i] == a then b else s[i])
  {
    if s == [] then [] else [if s[0] == a then b else s[0]] + ReplaceChar(s[1..], a, b)
  }

  function LowerChar(c: char): char {
    if 'A' <= c <= 'Z' then (c as int + 32) as char else c
  }

  /** `s.lower()` on ASCII letters (other characters are kept). */
  function Lower(s: string): (r: string)
    ensures |r| == |s|
    ensures forall i :: 0 <= i < |s| ==> r[i] == LowerChar(s[i])
  {
    if s == "" then "" else [LowerChar(s[0])] + Lower(s[1..])
  }

  // ---------------------------------------------------------- str() / int()

  function DigitChar(d: nat): (c: char)
    requires d < 10
    ensures IsAsciiDigit(c)
  {
    ('0' as int + d) as char
  }

  function DigitValue(c: char): (d: nat)
    requires IsAsciiDigit(c)
    ensures d < 10
  {
    c as int - '0' as int
  }

  /** `str(n)` for a natural number. */
  function NatToString(n: nat): (r: string)
    ensures r != ""
    ensures forall i :: 0 <= i < |r| ==> IsAsciiDigit(r[i])
  {
    if n < 10 then [DigitChar(n)] else NatToString(n / 10) + [DigitChar(n % 10)]
  }

  /** `str(i)` for an integer. */
  function IntToString(i: int): string {
    if i < 0 then "-" + NatToString(-i) else NatToString(i)
  }

  /** Digits, possibly with single underscores between them (Python 3.6+ literals). */
  predicate ValidDigits(t: string) {
    && |t| > 0
    && IsAsciiDigit(t[0])
    && IsAsciiDigit(t[|t| - 1])
    && (forall i :: 0 <= i < |t| ==> IsAsciiDigit(t[i]) || t[i] == '_')
    && (forall i :: 0 <= i < |t| - 1 ==> !(t[i] == '_' && t[i + 1] == '_'))
  }

  function DigitsValue(t: string): nat
    requires forall i :: 0 <= i < |t| ==> IsAsciiDigit(t[i]) || t[i] == '_'
  {
    if t == "" then 0
    else if t[|t| - 1] == '_' then DigitsValue(t[..|t| - 1])
    else DigitsValue(t[..|t| - 1]) * 10 + DigitValue(t[|t| - 1])
  }

  /** `int(s)`: `None` where Python raises ValueError. */
  function ParseInt(s: string): Option<int> {
    var t := Strip(s);
    if |t| > 0 && (t[0] == '+' || t[0] == '-') then
      var body := t[1..];
      if ValidDigits(body) then
        Some(if t[0] == '-' then -(DigitsValue(body) as int) else DigitsValue(body) as int)
      else None
    else if ValidDigits(t) then Some(DigitsValue(t) as int)
    else None
  }

  lemma {:induction false} NatToStringValue(n: nat)
    ensures DigitsValue(NatToString(n)) == n
  {
    var r := NatToString(n);
    if n >= 10 {
      NatToStringValue(n / 10);
      assert r[..|r| - 1] == NatToString(n / 10);
    }
  }

  /** The decimal digits of `str(n)` are valid digits and read back as `n`. */
  lemma NatToStringDigits(n: nat)
    ensures ValidDigits(NatToString(n)) && DigitsValue(NatToString(n)) == n
  {
    NatToStringValue(n);
  }

  /** An unsigned run of valid digits parses to its value. */
  lemma ParseIntOfDigits(t: string)
    requires ValidDigits(t)
    ensures ParseInt(t) == Some(DigitsValue(t) as int)
  {
    assert Strip(t) == t by {
      assert !IsSpace(t[0]) && !IsSpace(t[|t| - 1]);
      StripNoOp(t);
    }
  }

  /** A minus sign before valid digits parses to the negated value. */
  lemma ParseIntOfNegatedDigits(t: string)
    requires ValidDigits(t)
    ensures ParseInt("-" + t) == Some(-(DigitsValue(t) as int))
  {
    var s := "-" + t;
    assert Strip(s) == s by {
      assert s[|s| - 1] == t[|t| - 1];
      assert !IsSpace(s[0]) && !IsSpace(s[|s| - 1]);
      StripNoOp(s);
    }
    assert s[1..] == t;
    ParseIntOfSigned(s);
  }

  lemma ParseIntOfSigned(s: string)
    requires Strip(s) == s && |s| > 0 && s[0] == '-' && ValidDigits(s[1..])
    ensures ParseInt(s) == Some(-(DigitsValue(s[1..]) as int))
  {
  }

  /** `int(str(i)) == i` */
  lemma ParseIntOfIntToString(i: int)
    ensures ParseInt(IntToString(i)) == Some(i)
  {
    var n: nat := if i < 0 then -i else i;
    var digits := NatToString(n);
    NatToStringDigits(n);
    if i < 0 {
      assert IntToString(i) == "-" + digits;
      ParseIntOfNegatedDigits(digits);
    } else {
      assert IntToString(i) == digits;
      ParseIntOfDigits(digits);
    }
  }

  // ------------------------------------------------------------- os.path

  /** Index of the last occurrence of `c`, or -1 (`s.rfind(c)`). */
  function RFind(s: string, c: char): (i: int)
    ensures -1 <= i < |s|
    ensures i >= 0 ==> s[i] == c
    ensures forall k :: i < k < |s| ==> s[k] != c
  {
    if |s| == 0 then -1
    else if s[|s| - 1] == c then |s| - 1
    else RFind(s[..|s| - 1], c)
  }

  /**
   * `j` is where `os.path.splitext` (POSIX) cuts `p`: a '.' with no '/' and no
   * further '.' after it, preceded in the last path component by a character
   * other than '.'.
   */
  ghost predicate ExtensionAt(p: string, j: int) {
    0 <= j < |p| && p[j] == '.'
    && (forall k :: j < k < |p| ==> p[k] != '/' && p[k] != '.')
    && exists k :: 0 <= k < j && p[k] != '.' && (forall m :: k <= m < j ==> p[m] != '/')
  }

  /**
   * `os.path.splitext(p)` (POSIX): the extension starts at the last dot of the
   * last path component, unless everything before that dot in the component is dots.
   */
  function SplitExt(p: string): (r: (string, string))
    ensures r.0 + r.1 == p
    ensures r.1 != "" ==> r.1[0] == '.' && '/' !in r.1 && '.' !in r.1[1..]
    ensures r.1 != "" <==> exists j :: ExtensionAt(p, j)
    ensures r.1 != "" ==> ExtensionAt(p, |r.0|)
  {
    var sep := RFind(p, '/');
    var dot := RFind(p, '.');
    ExtensionIsLastDot(p);
    if dot > sep && exists k :: sep + 1 <= k < dot && p[k] != '.' then
      assert p[..dot] + p[dot..] == p;
      assert ExtensionAt(p, dot);
      (p[..dot], p[dot..])
    else (p, "")
  }

  /** A cut point is the last dot, past the last '/', with a non-dot between them. */
  lemma ExtensionIsLastDot(p: string)
    ensures forall j :: ExtensionAt(p, j) ==>
      var sep := RFind(p, '/');
      j == RFind(p, '.') && j > sep && exists k :: sep + 1 <= k < j && p[k] != '.'
  {
    var sep := RFind(p, '/');
    forall j | ExtensionAt(p, j)
      ensures j == RFind(p, '.') && j > sep && exists k :: sep + 1 <= k < j && p[k] != '.'
    {
      var k :| 0 <= k < j && p[k] != '.' && (forall m :: k <= m < j ==> p[m] != '/');
      assert k > sep by {
        if sep >= k {
          assert false;
        }
      }
    }
  }

  /** `os.path.basename(p)` (POSIX): the text after the last '/'. */
  function Basename(p: string): (r: string)
    ensures '/' !in r
    ensures EndsWith(p, r)
    ensures |r| == |p| || p[|p| - |r| - 1] == '/'
  {
    p[RFind(p, '/') + 1..]
  }
}
