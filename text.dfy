/**
 * The string operations the engines use: Python's `str.strip()`, `str.split(sep)`,
 * `str.splitlines()`, single-character `str.replace`, and decimal digit text.
 */
module Text {

  /** Characters for which Python's `str.isspace()` holds (the set `str.strip()` removes). */
  predicate IsSpace(c: char)
  {
    c == '\U{0020}' || c == '\U{0009}' || c == '\U{000A}' || c == '\U{000D}' || c == '\U{000B}' || c == '\U{000C}'
    || c == '\U{001C}' || c == '\U{001D}' || c == '\U{001E}' || c == '\U{001F}' || c == '\U{0085}' || c == '\U{00A0}'
    || c == '\U{1680}' || c == '\U{2028}' || c == '\U{2029}' || c == '\U{202F}' || c == '\U{205F}' || c == '\U{3000}'
    || ('\U{2000}' <= c <= '\U{200A}')
  }

  /** Line boundaries recognised by Python's `str.splitlines()`; "\r\n" counts as one. */
  predicate IsLineBreak(c: char)
  {
    c == '\U{000A}' || c == '\U{000D}' || c == '\U{000B}' || c == '\U{000C}' || c == '\U{001C}' || c == '\U{001D}'
    || c == '\U{001E}' || c == '\U{0085}' || c == '\U{2028}' || c == '\U{2029}'
  }

  /** The first index of `s` at or after `i` that is not whitespace (or `|s|`). */
  function SkipSpace(s: string, i: nat): (n: nat)
    requires i <= |s|
    ensures i <= n <= |s| && (n == |s| || !IsSpace(s[n]))
    ensures forall k :: i <= k < n ==> IsSpace(s[k])
    decreases |s| - i
  {
    if i == |s| || !IsSpace(s[i]) then i else SkipSpace(s, i + 1)
  }
  /** One past the last index before `j` and not before `lo` that is not whitespace (or `lo`). */
  function BackSpace(s: string, lo: nat, j: nat): (n: nat)
    requires lo <= j <= |s|
    ensures lo <= n <= j && (n == lo || !IsSpace(s[n - 1]))
    ensures forall k :: n <= k < j ==> IsSpace(s[k])
    decreases j
  {
    if j == lo || !IsSpace(s[j - 1]) then j else BackSpace(s, lo, j - 1)
  }
  /**
   * `s.strip()`: the slice of `s` left after cutting whitespace off both ends; it
   * neither starts nor ends with whitespace, and everything cut off is whitespace.
   */
  function Strip(s: string): (r: string)
    ensures r == [] || (!IsSpace(r[0]) && !IsSpace(r[|r| - 1]))
    ensures var a := SkipSpace(s, 0);
      && a + |r| <= |s| && r == s[a..a + |r|]
      && (forall i :: 0 <= i < a ==> IsSpace(s[i]))
      && (forall i :: a + |r| <= i < |s| ==> IsSpace(s[i]))
  {
    var a := SkipSpace(s, 0);
    var b := BackSpace(s, a, |s|);
    assert b < |s| ==> IsSpace(s[b]);
    s[a..b]
  }
  /** Stripping is idempotent. */
  lemma StripStripped(s: string)
    ensures Strip(Strip(s)) == Strip(s)
  {
    var r := Strip(s);
    if r != [] {
      assert SkipSpace(r, 0) == 0;
      assert BackSpace(r, 0, |r|) == |r|;
    }
  }

  /** `c` does not occur in `s`. */
  predicate Lacks(s: string, c: char)
  {
    forall k :: 0 <= k < |s| ==> s[k] != c
  }

  /** Where a character was found, if anywhere. */
  datatype Position = NotFound | Found(i: nat)

  function IndexOf(s: string, c: char): (r: Position)
    ensures r.Found? ==> r.i < |s| && s[r.i] == c && Lacks(s[..r.i], c)
    ensures r.NotFound? ==> Lacks(s, c)
  {
    if s == [] then NotFound
    else if s[0] == c then Found(0)
    else match IndexOf(s[1..], c)
      case NotFound => NotFound
      case Found(i) => assert s[..i + 1] == [s[0]] + s[1..][..i]; Found(i + 1)
  }

  /** The inverse of `Split`: the pieces glued back with the separator between them. */
  function Join(parts: seq<string>, sep: char): string
  {
    if parts == [] then []
    else if |parts| == 1 then parts[0]
    else parts[0] + [sep] + Join(parts[1..], sep)
  }

  function Count(s: string, c: char): nat
  {
    if s == [] then 0 else (if s[0] == c then 1 else 0) + Count(s[1..], c)
  }

  /**
   * `s.split(sep)` for a one-character separator: one more piece than there are
   * separators, no piece holding the separator, and joining them gives back `s`.
   */
  function Split(s: string, sep: char): (r: seq<string>)
    ensures |r| == Count(s, sep) + 1
    ensures forall i :: 0 <= i < |r| ==> Lacks(r[i], sep)
    ensures Join(r, sep) == s
    decreases |s|
  {
    match IndexOf(s, sep)
    case NotFound => LacksCount(s, sep); [s]
    case Found(i) =>
      var rest := Split(s[i + 1..], sep);
      CountSplit(s, sep, i);
      assert s == s[..i] + [sep] + s[i + 1..];
      [s[..i]] + rest
  }

  lemma {:induction false} LacksCount(s: string, c: char)
    requires Lacks(s, c)
    ensures Count(s, c) == 0
  {
    if s != [] {
      LacksCount(s[1..], c);
    }
  }

  lemma {:induction false} CountSplit(s: string, c: char, i: nat)
    requires i < |s| && s[i] == c && Lacks(s[..i], c)
    ensures Count(s, c) == 1 + Count(s[i + 1..], c)
  {
    if i > 0 {
      assert s[0] == s[..i][0];
      assert s[1..][..i - 1] == s[..i][1..];
      CountSplit(s[1..], c, i - 1);
      assert s[1..][i..] == s[i + 1..];
    }
  }

  function FirstBreak(s: string): (r: Position)
    ensures r.Found? ==> r.i < |s| && IsLineBreak(s[r.i]) && forall k :: 0 <= k < r.i ==> !IsLineBreak(s[k])
    ensures r.NotFound? ==> forall k :: 0 <= k < |s| ==> !IsLineBreak(s[k])
  {
    if s == [] then NotFound
    else if IsLineBreak(s[0]) then Found(0)
    else match FirstBreak(s[1..])
      case NotFound => NotFound
      case Found(i) => Found(i + 1)
  }

  /** The characters of `s` that are not line boundaries, in order. */
  function WithoutBreaks(s: string): string
  {
    if s == [] then [] else (if IsLineBreak(s[0]) then [] else [s[0]]) + WithoutBreaks(s[1..])
  }

  function Concat(parts: seq<string>): string
  {
    if parts == [] then [] else parts[0] + Concat(parts[1..])
  }

  /**
   * `s.splitlines()`: the text between line boundaries ("\r\n" being one boundary),
   * with no trailing empty line. No line holds a boundary character, the lines
   * together hold every other character of `s` in order, and text without a
   * boundary is a single line (none when it is empty).
   */
  function SplitLines(s: string): (r: seq<string>)
    ensures forall i, k :: 0 <= i < |r| && 0 <= k < |r[i]| ==> !IsLineBreak(r[i][k])
    ensures Concat(r) == WithoutBreaks(s)
    ensures FirstBreak(s).NotFound? ==> r == (if s == [] then [] else [s])
    ensures FirstBreak(s).Found? ==> |r| >= 1
    decreases |s|
  {
    match FirstBreak(s)
    case NotFound =>
      NoBreaks(s);
      if s == [] then [] else [s]
    case Found(i) =>
      var skip := if s[i] == '\r' && i + 1 < |s| && s[i + 1] == '\n' then 2 else 1;
      var rest := SplitLines(s[i + skip..]);
      BreakAt(s, i, skip);
      [s[..i]] + rest
  }

  lemma {:induction false} NoBreaks(s: string)
    requires forall k :: 0 <= k < |s| ==> !IsLineBreak(s[k])
    ensures WithoutBreaks(s) == s
  {
    if s != [] {
      NoBreaks(s[1..]);
    }
  }

  lemma {:induction false} PrefixWithoutBreaks(s: string, i: nat)
    requires i <= |s| && forall k :: 0 <= k < i ==> !IsLineBreak(s[k])
    ensures WithoutBreaks(s) == s[..i] + WithoutBreaks(s[i..])
  {
    if i > 0 {
      PrefixWithoutBreaks(s[1..], i - 1);
      assert s[1..][i - 1..] == s[i..];
      assert [s[0]] + s[1..][..i - 1] == s[..i];
    }
  }

  lemma BreakAt(s: string, i: nat, skip: nat)
    requires i < |s| && IsLineBreak(s[i]) && forall k :: 0 <= k < i ==> !IsLineBreak(s[k])
    requires skip == 1 || (skip == 2 && i + 1 < |s| && IsLineBreak(s[i + 1]))
    ensures WithoutBreaks(s) == s[..i] + WithoutBreaks(s[i + skip..])
  {
    PrefixWithoutBreaks(s, i);
    DropBreak(s, i);
    if skip == 2 {
      DropBreak(s, i + 1);
    }
  }

  /** With a boundary in `s`, the first line is the text before the first boundary. */
  lemma FirstLine(s: string)
    requires FirstBreak(s).Found?
    ensures SplitLines(s)[0] == s[..FirstBreak(s).i]
  {
  }

  /** No character of `s` is a line boundary. */
  predicate NoBreak(s: string)
  {
    forall k :: 0 <= k < |s| ==> !IsLineBreak(s[k])
  }

  /** In `a + [c] + b` with `a` free of boundaries, the first boundary is `c`. */
  lemma {:induction false} FirstBreakAfter(a: string, c: char, b: string)
    requires NoBreak(a) && IsLineBreak(c)
    ensures FirstBreak(a + [c] + b) == Found(|a|)
  {
    if a != [] {
      assert (a + [c] + b)[1..] == a[1..] + [c] + b;
      FirstBreakAfter(a[1..], c, b);
    }
  }

  /**
   * A line ended by a single boundary (not a "\r" that starts a "\r\n") is the
   * first line, and the lines of the rest follow it.
   */
  lemma LineThenRest(a: string, c: char, b: string)
    requires NoBreak(a) && IsLineBreak(c) && !(c == '\r' && b != [] && b[0] == '\n')
    ensures SplitLines(a + [c] + b) == [a] + SplitLines(b)
  {
    var s := a + [c] + b;
    FirstBreakAfter(a, c, b);
    assert s[..|a|] == a && s[|a| + 1..] == b;
  }

  /** A line ended by "\r\n" is the first line, the pair counting as one boundary. */
  lemma CrLfThenRest(a: string, b: string)
    requires NoBreak(a)
    ensures SplitLines(a + ['\r', '\n'] + b) == [a] + SplitLines(b)
  {
    var s := a + ['\r', '\n'] + b;
    assert s == a + ['\r'] + (['\n'] + b);
    FirstBreakAfter(a, '\r', ['\n'] + b);
    assert s[..|a|] == a && s[|a| + 2..] == b;
  }

  /**
   * `splitlines` undoes `"\n".join`: lines free of boundaries, the last one not
   * empty, joined with newlines, split back into the same lines.
   */
  lemma {:induction false} SplitLinesJoin(ls: seq<string>)
    requires forall i :: 0 <= i < |ls| ==> NoBreak(ls[i])
    requires ls != [] ==> ls[|ls| - 1] != []
    ensures SplitLines(Join(ls, '\n')) == ls
    decreases |ls|
  {
    if |ls| == 1 {
      assert FirstBreak(ls[0]).NotFound?;
    } else if |ls| > 1 {
      LineThenRest(ls[0], '\n', Join(ls[1..], '\n'));
      SplitLinesJoin(ls[1..]);
      assert [ls[0]] + ls[1..] == ls;
    }
  }

  /** A boundary character contributes nothing. */
  lemma DropBreak(s: string, i: nat)
    requires i < |s| && IsLineBreak(s[i])
    ensures WithoutBreaks(s[i..]) == WithoutBreaks(s[i + 1..])
  {
    assert s[i..][1..] == s[i + 1..];
  }

  /** `s.replace(a, b)` for single characters. */
  function ReplaceChar(s: string, a: char, b: char): (r: string)
    ensures |r| == |s|
    ensures a != b ==> a !in r
    ensures forall i :: 0 <= i < |s| && s[i] == a ==> r[i] == b
    ensures forall i :: 0 <= i < |s| && s[i] != a ==> r[i] == s[i]
  {
    if s == [] then [] else [if s[0] == a then b else s[0]] + ReplaceChar(s[1..], a, b)
  }

  predicate IsDigit(c: char)
  {
    '0' <= c <= '9'
  }

  /** Non-empty ASCII decimal digits: text that Python's `int()` and `float()` read as that number. */
  predicate IsDigits(s: string)
  {
    |s| > 0 && forall i :: 0 <= i < |s| ==> IsDigit(s[i])
  }

  function DigitsValue(s: string): nat
    requires forall i :: 0 <= i < |s| ==> IsDigit(s[i])
  {
    if s == [] then 0
    else
      var d := s[|s| - 1];
      assert IsDigit(d);
      10 * DigitsValue(s[..|s| - 1]) + (d as int - '0' as int)
  }

  /** The decimal rendering of a natural number, as `str(n)`. */
  function Decimal(n: nat): string
  {
    if n < 10 then [('0' as int + n) as char] else Decimal(n / 10) + [('0' as int + n % 10) as char]
  }

  /** Rendering a number and reading the digits back gives the number. */
  lemma {:induction false} DecimalRoundTrip(n: nat)
    ensures IsDigits(Decimal(n)) && DigitsValue(Decimal(n)) == n
  {
    if n >= 10 {
      DecimalRoundTrip(n / 10);
      var d := Decimal(n);
      assert d[..|d| - 1] == Decimal(n / 10);
    }
  }

  /** Leading zeros do not change the value. */
  lemma {:induction false} LeadingZero(s: string)
    requires forall i :: 0 <= i < |s| ==> IsDigit(s[i])
    ensures DigitsValue("0" + s) == DigitsValue(s)
  {
    if s != [] {
      var t := "0" + s;
      assert t[..|t| - 1] == "0" + s[..|s| - 1];
      LeadingZero(s[..|s| - 1]);
    }
  }

  /** `f"{n:02}"`: at least two characters, zero-padded after the sign. */
  function Pad2(n: int): string
  {
    if n < 0 then "-" + Decimal(-n)
    else if n < 10 then "0" + Decimal(n)
    else Decimal(n)
  }

  /** A non-negative field rendered with `:02` reads back as the same number. */
  lemma Pad2RoundTrip(n: nat)
    ensures IsDigits(Pad2(n)) && DigitsValue(Pad2(n)) == n && |Pad2(n)| >= 2
  {
    DecimalRoundTrip(n);
    if n < 10 {
      LeadingZero(Decimal(n));
    } else {
      assert |Decimal(n / 10)| >= 1;
    }
  }

  /** Digit text has nothing to strip. */
  lemma StripDigits(s: string)
    requires IsDigits(s)
    ensures Strip(s) == s
  {
    assert SkipSpace(s, 0) == 0;
    assert BackSpace(s, 0, |s|) == |s|;
  }

  /** A character that occurs is counted. */
  lemma {:induction false} CountPositive(s: string, c: char)
    requires c in s
    ensures Count(s, c) >= 1
  {
    if s[0] != c {
      assert c in s[1..];
      CountPositive(s[1..], c);
    }
  }

  /** A character that is counted occurs. */
  lemma CountedOccurs(s: string, c: char)
    requires Count(s, c) >= 1
    ensures c in s
  {
    if c !in s {
      assert Lacks(s, c);
      LacksCount(s, c);
    }
  }

  /** Splitting joined pieces that lack the separator gives the pieces back. */
  lemma {:induction false} SplitJoin(parts: seq<string>, sep: char)
    requires |parts| >= 1 && forall i :: 0 <= i < |parts| ==> Lacks(parts[i], sep)
    ensures Split(Join(parts, sep), sep) == parts
  {
    var s := Join(parts, sep);
    if |parts| == 1 {
      assert IndexOf(s, sep).NotFound?;
    } else {
      var p := parts[0];
      var rest := Join(parts[1..], sep);
      assert s == p + [sep] + rest;
      assert s[..|p|] == p;
      assert s[|p|] == sep && forall k :: 0 <= k < |p| ==> s[k] == p[k];
      assert IndexOf(s, sep) == Found(|p|);
      assert s[|p| + 1..] == rest;
      SplitJoin(parts[1..], sep);
      assert parts == [p] + parts[1..];
    }
  }

  /** Joining `n` pieces that lack the separator puts `n - 1` separators in. */
  lemma JoinCount(parts: seq<string>, sep: char)
    requires |parts| >= 1 && forall i :: 0 <= i < |parts| ==> Lacks(parts[i], sep)
    ensures Count(Join(parts, sep), sep) == |parts| - 1
  {
    SplitJoin(parts, sep);
  }

  /** Two pieces around one separator split back into those pieces. */
  lemma SplitTwo(a: string, b: string, sep: char)
    requires Lacks(a, sep) && Lacks(b, sep)
    ensures sep in a + [sep] + b && Split(a + [sep] + b, sep) == [a, b]
  {
    var ps := [a, b];
    assert ps[1..] == [b];
    assert (a + [sep] + b)[|a|] == sep;
    SplitJoin(ps, sep);
  }

  /** Putting one element in front of a sequence shifts the others up by one. */
  lemma Prepended<T>(x: T, xs: seq<T>)
    ensures |[x] + xs| == |xs| + 1 && ([x] + xs)[0] == x && ([x] + xs)[1..] == xs
    ensures forall j :: 0 <= j < |xs| ==> ([x] + xs)[j + 1] == xs[j]
  {
    assert ([x] + xs)[1..] == xs;
  }
}
