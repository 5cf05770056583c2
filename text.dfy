/** String helpers shared by every module: the .NET notions of white space,
    Trim, IsNullOrWhiteSpace, ordinal-ignore-case comparison and String.Join,
    stated over `string` (= seq<char>).  A C# `null` string is represented by
    "" wherever the source treats null and "" alike. */
module Text {

  datatype Option<+T> = None | Some(value: T)

  /** The characters char.IsWhiteSpace accepts: the Unicode space,
      line and paragraph separators, the tab, line feed, vertical tab, form
      feed, carriage return, next line and no-break space. */
  const WhiteSpaceChars: set<char> := {
    ' ', '\t', '\n', '\U{B}', '\U{C}', '\r', '\U{85}', '\U{A0}', '\U{1680}',
    '\U{2000}', '\U{2001}', '\U{2002}', '\U{2003}', '\U{2004}', '\U{2005}',
    '\U{2006}', '\U{2007}', '\U{2008}', '\U{2009}', '\U{200A}',
    '\U{2028}', '\U{2029}', '\U{202F}', '\U{205F}', '\U{3000}'
  }

  predicate IsWhiteSpace(c: char) {
    c in WhiteSpaceChars
  }

  /** string.IsNullOrWhiteSpace */
  predicate IsBlank(s: string) {
    forall i :: 0 <= i < |s| ==> IsWhiteSpace(s[i])
  }

  /** The number of white-space characters at the front of `s`. */
  function LeadingSpaces(s: string): (n: nat)
    ensures n <= |s|
    ensures n < |s| ==> !IsWhiteSpace(s[n])
  {
    if |s| > 0 && IsWhiteSpace(s[0]) then 1 + LeadingSpaces(s[1..]) else 0
  }

  /** The length of `s` without the white space at its end. */
  function EndOfText(s: string): (n: nat)
    ensures n <= |s|
    ensures n > 0 ==> !IsWhiteSpace(s[n - 1])
  {
    if |s| > 0 && IsWhiteSpace(s[|s| - 1]) then EndOfText(s[..|s| - 1]) else |s|
  }

  lemma {:induction false} LeadingSpacesAreWhite(s: string)
    ensures forall i :: 0 <= i < LeadingSpaces(s) ==> IsWhiteSpace(s[i])
  {
    if |s| > 0 && IsWhiteSpace(s[0]) {
      LeadingSpacesAreWhite(s[1..]);
      forall i | 0 < i < LeadingSpaces(s) ensures IsWhiteSpace(s[i]) {
        assert s[i] == s[1..][i - 1];
      }
    }
  }

  lemma {:induction false} TrailingSpacesAreWhite(s: string)
    ensures forall i :: EndOfText(s) <= i < |s| ==> IsWhiteSpace(s[i])
  {
    if |s| > 0 && IsWhiteSpace(s[|s| - 1]) {
      TrailingSpacesAreWhite(s[..|s| - 1]);
      forall i | EndOfText(s) <= i < |s| - 1 ensures IsWhiteSpace(s[i]) {
        assert s[i] == s[..|s| - 1][i];
      }
    }
  }

  /** String.TrimStart() */
  function TrimStart(s: string): string {
    s[LeadingSpaces(s)..]
  }

  /** String.TrimEnd() */
  function TrimEnd(s: string): string {
    s[..EndOfText(s)]
  }

  /** String.Trim(): drops leading and trailing white space. */
  function Trim(s: string): (r: string)
    ensures |r| <= |s|
    ensures |r| > 0 ==> !IsWhiteSpace(r[0]) && !IsWhiteSpace(r[|r| - 1])
  {
    TrimEnd(TrimStart(s))
  }

  /** A string with no white space at either end. */
  predicate IsTrimmed(s: string) {
    |s| > 0 ==> !IsWhiteSpace(s[0]) && !IsWhiteSpace(s[|s| - 1])
  }

  lemma TrimOfTrimmed(s: string)
    requires IsTrimmed(s)
    ensures Trim(s) == s
  {
    if |s| > 0 {
      assert LeadingSpaces(s) == 0;
      assert TrimStart(s) == s;
      assert EndOfText(s) == |s|;
    }
  }

  lemma TrimIdempotent(s: string)
    ensures Trim(Trim(s)) == Trim(s)
  {
    TrimOfTrimmed(Trim(s));
  }

  /** A string is blank exactly when trimming it leaves nothing. */
  lemma BlankIffTrimEmpty(s: string)
    ensures IsBlank(s) <==> Trim(s) == ""
  {
    var t := TrimStart(s);
    if IsBlank(s) {
      assert LeadingSpaces(s) == |s|;
      assert t == [];
    }
    if Trim(s) == "" {
      assert t == [] by {
        if t != [] {
          assert t[0] == s[LeadingSpaces(s)];
          TrailingSpacesAreWhite(t);
        }
      }
      LeadingSpacesAreWhite(s);
    }
  }

  /** Trimming leaves a non-blank string non-empty. */
  lemma TrimOfNonBlank(s: string)
    requires !IsBlank(s)
    ensures Trim(s) != "" && !IsBlank(Trim(s))
  {
    BlankIffTrimEmpty(s);
    BlankIffTrimEmpty(Trim(s));
    TrimIdempotent(s);
  }

  function AsciiLower(c: char): char {
    if 'A' <= c <= 'Z' then (c as int + 32) as char else c
  }

  /** ToLower() as far as comparisons with ASCII words are concerned. */
  function Lower(s: string): (r: string)
    ensures |r| == |s|
    ensures forall i :: 0 <= i < |s| ==> r[i] == AsciiLower(s[i])
  {
    seq(|s|, i requires 0 <= i < |s| => AsciiLower(s[i]))
  }

  /** The case folding of StringComparison.OrdinalIgnoreCase, which compares
      the upper-case forms, as far as comparisons with ASCII text are
      concerned: ASCII letters fold, and so do the two non-ASCII letters
      whose upper case is ASCII, dotless i (U+0131, upper case 'I') and
      long s (U+017F, upper case 'S'). */
  function OrdinalFold(c: char): char {
    if c == '\U{0131}' then 'i'
    else if c == '\U{017F}' then 's'
    else AsciiLower(c)
  }

  function Fold(s: string): (r: string)
    ensures |r| == |s|
    ensures forall i :: 0 <= i < |s| ==> r[i] == OrdinalFold(s[i])
  {
    seq(|s|, i requires 0 <= i < |s| => OrdinalFold(s[i]))
  }

  /** StringComparison.OrdinalIgnoreCase equality, for comparisons where
      one side is ASCII. */
  predicate EqualsIgnoreCase(a: string, b: string) {
    Fold(a) == Fold(b)
  }

  predicate StartsWith(s: string, prefix: string) {
    |prefix| <= |s| && s[..|prefix|] == prefix
  }

  predicate StartsWithIgnoreCase(s: string, prefix: string) {
    |prefix| <= |s| && EqualsIgnoreCase(s[..|prefix|], prefix)
  }

  /** String.Contains(sub) */
  predicate Contains(s: string, sub: string) {
    exists k :: 0 <= k <= |s| && StartsWith(s[k..], sub)
  }

  /** String.Join(sep, parts) */
  function Join(parts: seq<string>, sep: string): string
    decreases |parts|
  {
    if |parts| == 0 then ""
    else if |parts| == 1 then parts[0]
    else parts[0] + sep + Join(parts[1..], sep)
  }

  /** Joining one more part appends the separator and the part. */
  lemma {:induction false} JoinSnoc(parts: seq<string>, sep: string, x: string)
    requires |parts| > 0
    ensures Join(parts + [x], sep) == Join(parts, sep) + sep + x
    decreases |parts|
  {
    var ps := parts + [x];
    assert ps[0] == parts[0] && ps[1..] == parts[1..] + [x];
    if |parts| > 1 {
      JoinSnoc(parts[1..], sep, x);
    } else {
      assert ps[1..] == [x];
    }
  }

  /** The text of `s` before its first `sep`, i.e. s.Split(sep)[0]. */
  function BeforeFirst(s: string, sep: char): (r: string)
    ensures |r| <= |s| && r == s[..|r|] && sep !in r
    ensures |r| < |s| ==> s[|r|] == sep
  {
    if s == [] then []
    else if s[0] == sep then []
    else [s[0]] + BeforeFirst(s[1..], sep)
  }

  lemma {:induction false} BeforeFirstOfPrefix(a: string, sep: char, b: string)
    requires sep !in a
    ensures BeforeFirst(a + [sep] + b, sep) == a
  {
    if a != [] {
      assert (a + [sep] + b)[1..] == a[1..] + [sep] + b;
      BeforeFirstOfPrefix(a[1..], sep, b);
    } else {
      assert (a + [sep] + b)[0] == sep;
    }
  }

  /** Replace(c.ToString(), "\\" + c): a backslash before every `c`. */
  function EscapeChar(s: string, c: char): (r: string)
    ensures |r| >= |s|
  {
    if s == [] then []
    else (if s[0] == c then ['\\', c] else [s[0]]) + EscapeChar(s[1..], c)
  }

  lemma {:induction false} EscapeCharAppend(a: string, b: string, c: char)
    ensures EscapeChar(a + b, c) == EscapeChar(a, c) + EscapeChar(b, c)
  {
    if a != [] {
      assert (a + b)[1..] == a[1..] + b;
      EscapeCharAppend(a[1..], b, c);
    } else {
      assert a + b == b;
    }
  }

  lemma {:induction false} EscapeCharAbsent(s: string, c: char)
    requires c !in s
    ensures EscapeChar(s, c) == s
  {
    if s != [] {
      assert s[0] != c && c !in s[1..];
      EscapeCharAbsent(s[1..], c);
    }
  }

  /** Decoding of a JSON string body as far as the escapes `\\` and `\"`
      go: a backslash stands for the character after it. */
  function JsonUnescape(s: string): string
    decreases |s|
  {
    if s == [] then []
    else if s[0] == '\\' && |s| >= 2 then [s[1]] + JsonUnescape(s[2..])
    else [s[0]] + JsonUnescape(s[1..])
  }

  /** Backslashes escaped first and quotes second, as every string value of
      the generated JSON is written: the JSON decoding gives back the text. */
  lemma {:induction false} EscapedTextRoundTrip(x: string)
    ensures JsonUnescape(EscapeChar(EscapeChar(x, '\\'), '"')) == x
  {
    if x != [] {
      var head := if x[0] == '\\' then ['\\', '\\'] else [x[0]];
      assert EscapeChar(x, '\\') == head + EscapeChar(x[1..], '\\');
      EscapeCharAppend(head, EscapeChar(x[1..], '\\'), '"');
      var e := EscapeChar(EscapeChar(x[1..], '\\'), '"');
      EscapedTextRoundTrip(x[1..]);
      if x[0] == '\\' {
        assert EscapeChar(head, '"') == ['\\', '\\'];
        assert (['\\', '\\'] + e)[2..] == e;
      } else if x[0] == '"' {
        assert EscapeChar(head, '"') == ['\\', '"'];
        assert (['\\', '"'] + e)[2..] == e;
      } else {
        assert EscapeChar(head, '"') == [x[0]];
        assert ([x[0]] + e)[1..] == e;
      }
    }
  }

  predicate IsDigit(c: char) {
    '0' <= c <= '9'
  }

  function DigitChar(d: nat): (c: char)
    requires d < 10
    ensures IsDigit(c)
  {
    ('0' as int + d) as char
  }

  /** The decimal text of a natural number, as Int32.ToString() writes it. */
  function NatText(n: nat): (r: string)
    ensures |r| > 0 && forall k :: 0 <= k < |r| ==> IsDigit(r[k])
    decreases n
  {
    if n < 10 then [DigitChar(n)] else NatText(n / 10) + [DigitChar(n % 10)]
  }

  /** Int32.ToString() with the invariant culture's minus sign. */
  function IntText(i: int): string {
    if i < 0 then "-" + NatText(-i) else NatText(i)
  }

  /** The number a string of decimal digits denotes. */
  function DigitsValue(s: string): nat
    requires forall k :: 0 <= k < |s| ==> IsDigit(s[k])
  {
    if s == [] then 0
    else
      assert IsDigit(s[|s| - 1]);
      10 * DigitsValue(s[..|s| - 1]) + (s[|s| - 1] as int - '0' as int)
  }

  /** Reading the decimal text back gives the number, so distinct numbers
      have distinct texts. */
  lemma {:induction false} NatTextValue(n: nat)
    ensures DigitsValue(NatText(n)) == n
    decreases n
  {
    if n >= 10 {
      var r := NatText(n);
      assert r[..|r| - 1] == NatText(n / 10);
      NatTextValue(n / 10);
    }
  }
}
