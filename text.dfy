/**
 * The string primitives of the .NET base library that the program relies on:
 * whitespace tests and trimming, ordinal case-insensitive comparison,
 * String.Split on one character, removal of a character, and Int32 parsing
 * and decimal rendering with the invariant culture.
 */
module Text {
  import opened Wrappers

  const MaxInt32: int := 0x7FFF_FFFF
  const MinInt32: int := -0x8000_0000

  /** The whitespace characters of int.Parse: space and the control characters TAB through CR. */
  predicate IsNumberWhite(c: char) {
    c == ' ' || '\t' <= c <= '\r'
  }

  /**
   * char.IsWhiteSpace: the characters above, NEXT LINE, and the Unicode space,
   * line and paragraph separators.
   */
  predicate IsWhite(c: char) {
    IsNumberWhite(c) || c == '\U{0085}' || c == '\U{00A0}' || c == '\U{1680}'
    || '\U{2000}' <= c <= '\U{200A}' || c == '\U{2028}' || c == '\U{2029}'
    || c == '\U{202F}' || c == '\U{205F}' || c == '\U{3000}'
  }

  /** string.IsNullOrWhiteSpace for a non-null string. */
  predicate IsBlank(s: string) {
    forall i :: 0 <= i < |s| ==> IsWhite(s[i])
  }

  /** Number of whitespace characters at the start of s. */
  function LeadingWhite(s: string): (k: nat)
    ensures k <= |s|
    ensures forall i :: 0 <= i < k ==> IsWhite(s[i])
    ensures k < |s| ==> !IsWhite(s[k])
  {
    if s != [] && IsWhite(s[0]) then 1 + LeadingWhite(s[1..]) else 0
  }

  /** Number of whitespace characters at the end of s. */
  function TrailingWhite(s: string): (k: nat)
    ensures k <= |s|
    ensures forall i :: |s| - k <= i < |s| ==> IsWhite(s[i])
    ensures k < |s| ==> !IsWhite(s[|s| - 1 - k])
  {
    if s != [] && IsWhite(s[|s| - 1]) then 1 + TrailingWhite(s[..|s| - 1]) else 0
  }

  function TrimStart(s: string): string {
    s[LeadingWhite(s)..]
  }

  function TrimEnd(s: string): string {
    s[..|s| - TrailingWhite(s)]
  }

  /** String.Trim(). */
  function Trim(s: string): string {
    TrimEnd(TrimStart(s))
  }

  /** s neither starts nor ends with whitespace. */
  predicate IsTrimmed(s: string) {
    s == [] || (!IsWhite(s[0]) && !IsWhite(s[|s| - 1]))
  }

  lemma TrimIsTrimmed(s: string)
    ensures IsTrimmed(Trim(s))
    ensures Trim(s) == [] <==> IsBlank(s)
  {
    var a := TrimStart(s);
    if a != [] {
      assert !IsWhite(a[0]);
      assert TrailingWhite(a) < |a|;
    }
  }

  lemma TrimOfTrimmed(s: string)
    requires IsTrimmed(s)
    ensures Trim(s) == s
  {
  }

  /** Trimming only removes characters. */
  lemma TrimSubset(s: string, c: char)
    requires c !in s
    ensures c !in Trim(s)
  {
    var a := TrimStart(s);
    var t := Trim(s);
    assert forall j :: 0 <= j < |a| ==> a[j] == s[j + LeadingWhite(s)];
    assert forall j :: 0 <= j < |t| ==> t[j] == a[j];
  }

  /** Ordinal ASCII lower-casing, as ordinal case-insensitive comparison folds letters. */
  function ToLower(c: char): char {
    if 'A' <= c <= 'Z' then (c as int + 32) as char else c
  }

  /** string.Equals(a, b, StringComparison.OrdinalIgnoreCase). */
  predicate EqualsIgnoreCase(a: string, b: string) {
    |a| == |b| && forall i :: 0 <= i < |a| ==> ToLower(a[i]) == ToLower(b[i])
  }

  /** s starts with p, with ordinal case-insensitive comparison. */
  predicate StartsWithIgnoreCase(s: string, p: string) {
    |p| <= |s| && EqualsIgnoreCase(s[..|p|], p)
  }

  /** Index of the first occurrence of c in s. */
  function IndexOf(s: string, c: char): (i: nat)
    requires c in s
    ensures i < |s| && s[i] == c && c !in s[..i]
  {
    if s[0] == c then 0 else 1 + IndexOf(s[1..], c)
  }

  /** The first occurrence is the only index holding c with no c before it. */
  lemma {:induction false} IndexOfUnique(s: string, c: char, i: nat)
    requires i < |s| && s[i] == c && c !in s[..i]
    ensures IndexOf(s, c) == i
  {
    if i > 0 {
      assert s[..i][0] == s[0];
      assert s[1..][..i - 1] == s[..i][1..];
      IndexOfUnique(s[1..], c, i - 1);
    }
  }

  /** String.Split(sep): the pieces between occurrences of sep, always at least one. */
  function Split(s: string, sep: char): (parts: seq<string>)
    ensures |parts| >= 1
    ensures forall p <- parts :: sep !in p
    decreases |s|
  {
    if sep in s then
      var i := IndexOf(s, sep);
      [s[..i]] + Split(s[i + 1..], sep)
    else
      [s]
  }

  /** String.Join(sep, parts). */
  function Join(parts: seq<string>, sep: char): string {
    if |parts| == 0 then ""
    else if |parts| == 1 then parts[0]
    else parts[0] + [sep] + Join(parts[1..], sep)
  }

  lemma {:induction false} JoinSplit(s: string, sep: char)
    ensures Join(Split(s, sep), sep) == s
    decreases |s|
  {
    if sep in s {
      var i := IndexOf(s, sep);
      var rest := Split(s[i + 1..], sep);
      assert Split(s, sep) == [s[..i]] + rest;
      assert ([s[..i]] + rest)[1..] == rest;
      JoinSplit(s[i + 1..], sep);
      assert Join(Split(s, sep), sep) == s[..i] + [sep] + s[i + 1..];
      assert s == s[..i] + [sep] + s[i + 1..];
    }
  }

  /** A slice holds no character its string lacks. */
  lemma SliceAbsent(s: string, c: char, lo: nat, hi: nat)
    requires c !in s && lo <= hi <= |s|
    ensures c !in s[lo..hi]
  {
    assert forall k :: 0 <= k < hi - lo ==> s[lo..hi][k] == s[lo + k];
  }

  /** Splitting a + sep + b where a holds no separator: a is the first piece, the rest splits b. */
  lemma SplitAt(a: string, sep: char, b: string)
    requires sep !in a
    ensures Split(a + [sep] + b, sep) == [a] + Split(b, sep)
  {
    var s := a + [sep] + b;
    assert s[|a|] == sep;
    var i := IndexOf(s, sep);
    assert s[..|a|] == a;
    assert forall j :: 0 <= j < |a| ==> s[j] == a[j];
    assert i == |a|;
    assert s[i + 1..] == b;
  }

  /** Splitting a + sep + b where b holds no separator: the pieces of a, then b. */
  lemma {:induction false} SplitSnoc(a: string, sep: char, b: string)
    requires sep !in b
    ensures Split(a + [sep] + b, sep) == Split(a, sep) + [b]
    decreases |a|
  {
    var s := a + [sep] + b;
    if sep in a {
      var i := IndexOf(a, sep);
      assert s[..i] == a[..i];
      IndexOfUnique(s, sep, i);
      assert s[i + 1..] == a[i + 1..] + [sep] + b;
      SplitSnoc(a[i + 1..], sep, b);
      assert Split(s, sep) == [a[..i]] + Split(a[i + 1..] + [sep] + b, sep);
      assert Split(a, sep) == [a[..i]] + Split(a[i + 1..], sep);
    } else {
      SplitAt(a, sep, b);
      assert Split(b, sep) == [b];
    }
  }

  /** line.Replace(c, ""): every occurrence of c removed. */
  function Remove(s: string, c: char): (r: string)
    ensures c !in r
    ensures |r| <= |s|
  {
    if s == [] then []
    else (if s[0] == c then [] else [s[0]]) + Remove(s[1..], c)
  }

  lemma {:induction false} RemoveAbsent(s: string, c: char)
    requires c !in s
    ensures Remove(s, c) == s
  {
    if s != [] {
      RemoveAbsent(s[1..], c);
    }
  }

  /** Removing a character from a concatenation removes it from each part. */
  lemma {:induction false} RemoveAppend(a: string, b: string, c: char)
    ensures Remove(a + b, c) == Remove(a, c) + Remove(b, c)
  {
    if a == [] {
      assert a + b == b;
    } else {
      var t := a + b;
      var head: string := if a[0] == c then [] else [a[0]];
      assert t[0] == a[0] && t[1..] == a[1..] + b;
      assert Remove(t, c) == head + Remove(a[1..] + b, c);
      RemoveAppend(a[1..], b, c);
      assert Remove(a, c) == head + Remove(a[1..], c);
    }
  }

  /** s.StartsWith(p) for a prefix of plain ASCII punctuation. */
  predicate StartsWith(s: string, p: string) {
    |p| <= |s| && s[..|p|] == p
  }

  /** Encoding.ASCII replaces every character outside 0..127 by '?'. */
  function ToAscii(s: string): (r: string)
    ensures |r| == |s|
    ensures forall i :: 0 <= i < |s| ==> r[i] == (if s[i] as int < 128 then s[i] else '?')
  {
    seq(|s|, i requires 0 <= i < |s| => if s[i] as int < 128 then s[i] else '?')
  }

  predicate IsAsciiText(s: string) {
    forall i :: 0 <= i < |s| ==> s[i] as int < 128
  }

  /** ASCII text passes through the encoding unchanged. */
  lemma ToAsciiOfAscii(s: string)
    requires IsAsciiText(s)
    ensures ToAscii(s) == s
  {
  }

  /** The encoding works character by character. */
  lemma ToAsciiAppend(a: string, b: string)
    ensures ToAscii(a + b) == ToAscii(a) + ToAscii(b)
  {
  }

  predicate IsDigit(c: char) {
    '0' <= c <= '9'
  }

  predicate AllDigits(s: string) {
    forall i :: 0 <= i < |s| ==> IsDigit(s[i])
  }

  function DigitChar(d: nat): (c: char)
    requires d < 10
    ensures IsDigit(c)
  {
    ('0' as int + d) as char
  }

  /** The value of a string of decimal digits. */
  function DigitsValue(s: string): nat
    requires AllDigits(s)
  {
    if s == [] then 0
    else 10 * DigitsValue(s[..|s| - 1]) + (s[|s| - 1] as int - '0' as int)
  }

  /** Invariant-culture decimal rendering of a non-negative number: no sign, no padding. */
  function NatToString(n: nat): (s: string)
    ensures |s| >= 1 && AllDigits(s)
  {
    if n < 10 then [DigitChar(n)] else NatToString(n / 10) + [DigitChar(n % 10)]
  }

  /** int.ToString("D", CultureInfo.InvariantCulture). */
  function IntToString(i: int): string {
    if i < 0 then "-" + NatToString(-i) else NatToString(i)
  }

  lemma {:induction false} NatToStringValue(n: nat)
    ensures DigitsValue(NatToString(n)) == n
  {
    var s := NatToString(n);
    if n >= 10 {
      NatToStringValue(n / 10);
      assert s[..|s| - 1] == NatToString(n / 10);
    }
  }

  /** The rendering has no leading zero, except for zero itself. */
  lemma {:induction false} NatToStringNoLeadingZero(n: nat)
    ensures NatToString(n)[0] == '0' <==> n == 0
  {
    if n >= 10 {
      NatToStringNoLeadingZero(n / 10);
    }
  }

  /** Number of int.Parse whitespace characters at the start of s. */
  function LeadingNumberWhite(s: string): (k: nat)
    ensures k <= |s|
    ensures forall i :: 0 <= i < k ==> IsNumberWhite(s[i])
    ensures k < |s| ==> !IsNumberWhite(s[k])
  {
    if s != [] && IsNumberWhite(s[0]) then 1 + LeadingNumberWhite(s[1..]) else 0
  }

  /** Number of int.Parse whitespace characters at the end of s. */
  function TrailingNumberWhite(s: string): (k: nat)
    ensures k <= |s|
    ensures forall i :: |s| - k <= i < |s| ==> IsNumberWhite(s[i])
    ensures k < |s| ==> !IsNumberWhite(s[|s| - 1 - k])
  {
    if s != [] && IsNumberWhite(s[|s| - 1]) then 1 + TrailingNumberWhite(s[..|s| - 1]) else 0
  }

  /** s without its trailing NUL characters. */
  function StripNul(s: string): (r: string)
    ensures |r| <= |s| && r == s[..|r|]
    ensures r != [] ==> r[|r| - 1] != '\0'
    ensures forall i :: |r| <= i < |s| ==> s[i] == '\0'
  {
    if s != [] && s[|s| - 1] == '\0' then StripNul(s[..|s| - 1]) else s
  }

  /**
   * The part of s that int.Parse reads: after its leading white, and before its trailing
   * white followed by any number of NUL characters, which int.Parse also accepts.
   */
  function NumberTrim(s: string): string {
    var b := StripNul(s[LeadingNumberWhite(s)..]);
    b[..|b| - TrailingNumberWhite(b)]
  }

  /**
   * int.Parse(s, NumberStyles.Integer, CultureInfo.InvariantCulture):
   * leading and trailing whitespace, an optional sign, at least one digit;
   * a malformed string is a FormatException and a value outside Int32 an OverflowException.
   */
  function ParseInt32(s: string): (r: Result<int>)
    ensures r.Ok? ==> MinInt32 <= r.value <= MaxInt32
  {
    ParseTrimmed(NumberTrim(s))
  }

  /** An optional sign and at least one digit, as int.Parse reads them once trimmed. */
  function ParseTrimmed(t: string): (r: Result<int>)
    ensures r.Ok? ==> MinInt32 <= r.value <= MaxInt32
  {
    if t == [] then Err(Format)
    else
      var body := if t[0] == '-' || t[0] == '+' then t[1..] else t;
      if body == [] || !AllDigits(body) then Err(Format)
      else
        var magnitude: int := DigitsValue(body);
        var v: int := if t[0] == '-' then -magnitude else magnitude;
        if v < MinInt32 || MaxInt32 < v then Err(Overflow) else Ok(v)
  }

  /** A non-empty digit string parses to its value, or overflows. */
  lemma ParseDigits(s: string)
    requires |s| >= 1 && AllDigits(s)
    ensures ParseInt32(s) == if DigitsValue(s) <= MaxInt32 then Ok(DigitsValue(s)) else Err(Overflow)
  {
    NumberTrimOfDigits(s);
  }

  /** A string that starts and ends with a digit or sign is not trimmed by int.Parse. */
  lemma NumberTrimOfDigits(s: string)
    requires |s| >= 1 && (IsDigit(s[0]) || s[0] == '-') && IsDigit(s[|s| - 1])
    ensures NumberTrim(s) == s
  {
    assert LeadingNumberWhite(s) == 0;
    assert StripNul(s) == s;
    assert TrailingNumberWhite(s) == 0;
  }

  /** A NUL after the number is ignored: "3\0" parses as 3. */
  lemma TrailingNulIgnored(s: string)
    ensures ParseInt32(s + "\0") == ParseInt32(s)
  {
    NulTrimmed(s);
  }

  /** Appending a NUL leaves the number's text unchanged. */
  lemma NulTrimmed(s: string)
    ensures NumberTrim(s + "\0") == NumberTrim(s)
  {
    LeadingNumberWhiteAppend(s, '\0');
    var k := LeadingNumberWhite(s);
    var a := s[k..];
    assert (s + "\0")[k..] == a + "\0";
    StripNulAppend(a);
  }

  /** A NUL appended to s is stripped with its trailing NULs. */
  lemma StripNulAppend(a: string)
    ensures StripNul(a + "\0") == StripNul(a)
  {
    assert (a + "\0")[..|a|] == a;
  }

  /** A character outside the int.Parse white set ends the leading white of s + [c] at s's. */
  lemma {:induction false} LeadingNumberWhiteAppend(s: string, c: char)
    requires !IsNumberWhite(c)
    ensures LeadingNumberWhite(s + [c]) == LeadingNumberWhite(s)
  {
    if s != [] && IsNumberWhite(s[0]) {
      assert (s + [c])[1..] == s[1..] + [c];
      LeadingNumberWhiteAppend(s[1..], c);
    }
  }

  /** A version line ending in NUL, such as "Version=1.2.3\0": int.Parse("3\0") is 3. */
  lemma ParseNulTerminated()
    ensures ParseInt32("3\0") == Ok(3)
  {
    var d := "3";
    NulTrimmed(d);
    assert d + "\0" == "3\0";
    NumberTrimOfDigits(d);
    assert ParseInt32(d + "\0") == ParseTrimmed(d);
  }

  /** Rendering an Int32 and parsing it back gives the same number. */
  lemma ParseIntToString(i: int)
    requires MinInt32 <= i <= MaxInt32
    ensures ParseInt32(IntToString(i)) == Ok(i)
  {
    var s := IntToString(i);
    var n: nat := if i < 0 then -i else i;
    NatToStringValue(n);
    NumberTrimOfDigits(s);
    assert ParseInt32(s) == ParseTrimmed(s);
    if i < 0 {
      assert s[1..] == NatToString(n);
    }
  }

  /** A blank string never parses. */
  lemma ParseBlank(s: string)
    requires IsBlank(s)
    ensures ParseInt32(s) == Err(Format)
  {
    var k := LeadingNumberWhite(s);
    var t := NumberTrim(s);
    if t != [] {
      assert t[0] == s[k];
      assert IsWhite(t[0]);
    }
  }
}
