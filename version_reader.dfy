/**
 * VersionReader: parses "major.minor.build.revision-suffix" into a VersionInformation.
 * The text before the first '-' holds the dot-separated numbers (missing ones
 * read as 0); the text between the first and second '-' is the suffix, whose
 * trailing run of ASCII digits is the dynamic part and whose rest is the fixed part.
 */
module Reader {
  import opened Wrappers
  import opened Text
  import opened Versions

  /** Start of the trailing run of ASCII digits of s. */
  function TrailingDigitsStart(s: string): (k: nat)
    ensures k <= |s|
    ensures AllDigits(s[k..])
    ensures k > 0 ==> !IsDigit(s[k - 1])
  {
    if s != [] && IsDigit(s[|s| - 1]) then
      var k := TrailingDigitsStart(s[..|s| - 1]);
      assert s[k..] == s[..|s| - 1][k..] + [s[|s| - 1]];
      k
    else
      |s|
  }

  /** The suffix cut at its trailing digit run into (fixed part, dynamic part). */
  function SplitSuffix(suffix: string): (string, string) {
    var k := TrailingDigitsStart(suffix);
    (suffix[..k], suffix[k..])
  }

  /** The i-th numeric segment, trimmed; a missing segment reads as "0". */
  function Segment(segments: seq<string>, i: nat): string {
    if i < |segments| then Trim(segments[i]) else "0"
  }

  /** The four segment texts parsed as Int32 in order, then given to the version constructor. */
  function ParseSegments(major: string, minor: string, build: string, revision: string): Result<Version> {
    Assemble(ParseInt32(major), ParseInt32(minor), ParseInt32(build), ParseInt32(revision))
  }

  /** The version constructor applied to four parsed components; the first failed parse is the error. */
  function Assemble(major: Result<int>, minor: Result<int>, build: Result<int>, revision: Result<int>): Result<Version>
    requires major.Ok? ==> major.value <= MaxInt32
    requires minor.Ok? ==> minor.value <= MaxInt32
    requires build.Ok? ==> build.value <= MaxInt32
    requires revision.Ok? ==> revision.value <= MaxInt32
  {
    var ma :- major;
    var mi :- minor;
    var bu :- build;
    var re :- revision;
    MakeVersion(ma, mi, bu, re)
  }

  /** A parse that succeeds gives a non-negative Int32 and one that fails raises Format or Overflow. */
  predicate ParsedComponent(r: Result<int>) {
    (r.Ok? ==> 0 <= r.value <= MaxInt32) && (r.Err? ==> r.error == Format || r.error == Overflow)
  }

  /** Components that parse non-negative never make the version constructor throw. */
  lemma AssembleErrors(major: Result<int>, minor: Result<int>, build: Result<int>, revision: Result<int>)
    requires ParsedComponent(major) && ParsedComponent(minor) && ParsedComponent(build) && ParsedComponent(revision)
    ensures Assemble(major, minor, build, revision).Err? ==>
              Assemble(major, minor, build, revision).error in {Format, Overflow}
  {
  }

  /** The canonical part: the first four '.'-separated segments of the numeric part. */
  function ParseCanonical(numeric: string): Result<Version> {
    var segments := Split(numeric, '.');
    ParseSegments(Segment(segments, 0), Segment(segments, 1), Segment(segments, 2), Segment(segments, 3))
  }

  /** The suffix parts (fixed, dynamic) taken from the '-'-separated pieces. */
  function SuffixParts(parts: seq<string>): (string, string) {
    if |parts| > 1 then SplitSuffix(Trim(parts[1])) else ("", "")
  }

  /** What FromString returns for a string that is not blank. */
  function ParseNonBlank(s: string): Result<VersionInformation> {
    var parts := Split(s, '-');
    var canonical :- ParseCanonical(parts[0]);
    var (fixedPart, dynamicPart) := SuffixParts(parts);
    Ok(VersionInformation(canonical, dynamicPart, fixedPart))
  }

  /** What FromString returns or throws, given the ShouldThrowIfEmpty setting. */
  function ParseVersion(throwIfEmpty: bool, s: string): Result<VersionInformation> {
    if IsBlank(s) then
      if throwIfEmpty then Err(ArgumentNull) else Ok(Zero())
    else
      ParseNonBlank(s)
  }

  /**
   * The argument checks of the constructors of both version stores, in order: a null config
   * (None) is an ArgumentNullException, a blank file or variable name an ArgumentException,
   * and a null reader an ArgumentNullException.
   */
  function CheckStoreArguments(name: Option<string>, readerGiven: bool): (r: Outcome)
    ensures r.Pass? <==> name.Some? && !IsBlank(name.value) && readerGiven
    ensures name.None? ==> r == Fail(ArgumentNull)
    ensures name.Some? && IsBlank(name.value) ==> r == Fail(Argument)
    ensures name.Some? && !IsBlank(name.value) && !readerGiven ==> r == Fail(ArgumentNull)
  {
    if name.None? then Fail(ArgumentNull)
    else if IsBlank(name.value) then Fail(Argument)
    else if !readerGiven then Fail(ArgumentNull)
    else Pass
  }

  class VersionReader {
    var shouldThrowIfEmpty: bool

    constructor()
      ensures shouldThrowIfEmpty
    {
      shouldThrowIfEmpty := true;
    }

    method ThrowIfEmpty() returns (r: VersionReader)
      modifies this
      ensures shouldThrowIfEmpty && r == this
    {
      shouldThrowIfEmpty := true;
      r := this;
    }

    method IgnoreEmpty() returns (r: VersionReader)
      modifies this
      ensures !shouldThrowIfEmpty && r == this
    {
      shouldThrowIfEmpty := false;
      r := this;
    }

    /** The backward scan for the first character of the suffix's trailing digit run. */
    static method ScanSuffix(suffix: string) returns (fixedPart: string, dynamicPart: string)
      ensures (fixedPart, dynamicPart) == SplitSuffix(suffix)
    {
      var i: int := |suffix| - 1;
      while i >= 0
        invariant -1 <= i < |suffix|
        invariant TrailingDigitsStart(suffix[..i + 1]) == TrailingDigitsStart(suffix)
      {
        if !IsDigit(suffix[i]) {
          break;
        }
        assert suffix[..i + 1][..i] == suffix[..i];
        i := i - 1;
      }
      fixedPart := suffix[..i + 1];
      dynamicPart := "";
      if i + 1 < |suffix| {
        dynamicPart := suffix[i + 1..];
      }
    }

    method FromString(versionString: string) returns (r: Result<VersionInformation>)
      ensures r == ParseVersion(shouldThrowIfEmpty, versionString)
    {
      if IsBlank(versionString) {
        if shouldThrowIfEmpty {
          return Err(ArgumentNull);
        }
        return Ok(Zero());
      }
      var parts := Split(versionString, '-');
      var fixedPart := "";
      var dynamicPart := "";
      if |parts| > 1 {
        fixedPart, dynamicPart := ScanSuffix(Trim(parts[1]));
      }
      var canonical :- ParseCanonical(parts[0]);
      return Ok(VersionInformation(canonical, dynamicPart, fixedPart));
    }
  }

  /** The digit split is the only one: fixed + dynamic with dynamic all digits and fixed not ending in one. */
  lemma {:induction false} SplitSuffixUnique(fixedPart: string, dynamicPart: string)
    requires AllDigits(dynamicPart)
    requires fixedPart == [] || !IsDigit(fixedPart[|fixedPart| - 1])
    ensures SplitSuffix(fixedPart + dynamicPart) == (fixedPart, dynamicPart)
    decreases |dynamicPart|
  {
    var s := fixedPart + dynamicPart;
    if dynamicPart == [] {
      assert s == fixedPart;
    } else {
      var shorter := dynamicPart[..|dynamicPart| - 1];
      SplitSuffixUnique(fixedPart, shorter);
      assert s[..|s| - 1] == fixedPart + shorter;
      assert IsDigit(s[|s| - 1]);
    }
  }

  /** Blank input: ArgumentNullException while throwing is on, the zero value otherwise. */
  lemma ParseBlankInput(s: string)
    requires IsBlank(s)
    ensures ParseVersion(true, s) == Err(ArgumentNull)
    ensures ParseVersion(false, s) == Ok(Zero())
  {
  }

  /** Splitting keeps only characters of the original string. */
  lemma {:induction false} SplitSubset(s: string, sep: char, c: char)
    requires c !in s
    ensures forall p <- Split(s, sep) :: c !in p
    decreases |s|
  {
    if sep in s {
      var i := IndexOf(s, sep);
      SliceAbsent(s, c, 0, i);
      SliceAbsent(s, c, i + 1, |s|);
      SplitSubset(s[i + 1..], sep, c);
      assert Split(s, sep) == [s[..i]] + Split(s[i + 1..], sep);
    }
  }

  /** A segment that holds no '-' never parses to a negative number, and fails only with Format or Overflow. */
  lemma SegmentNonNegative(x: string)
    requires '-' !in x
    ensures ParsedComponent(ParseInt32(x))
  {
    TrimSubset(x, '-');
  }

  /** Segments without '-' fail only in int.Parse, never in the version constructor. */
  lemma ParseSegmentsErrors(major: string, minor: string, build: string, revision: string)
    requires '-' !in major && '-' !in minor && '-' !in build && '-' !in revision
    ensures ParseSegments(major, minor, build, revision).Err? ==>
              ParseSegments(major, minor, build, revision).error in {Format, Overflow}
  {
    SegmentNonNegative(major);
    SegmentNonNegative(minor);
    SegmentNonNegative(build);
    SegmentNonNegative(revision);
    AssembleErrors(ParseInt32(major), ParseInt32(minor), ParseInt32(build), ParseInt32(revision));
  }

  /** Parsing a numeric part without '-' fails only in int.Parse, never in the version constructor. */
  lemma ParseCanonicalErrors(numeric: string)
    requires '-' !in numeric
    ensures ParseCanonical(numeric).Err? ==> ParseCanonical(numeric).error in {Format, Overflow}
  {
    var segments := Split(numeric, '.');
    SplitSubset(numeric, '.', '-');
    forall i: nat | i < 4
      ensures '-' !in Segment(segments, i)
    {
      if i < |segments| {
        TrimSubset(segments[i], '-');
      }
    }
    ParseSegmentsErrors(Segment(segments, 0), Segment(segments, 1), Segment(segments, 2), Segment(segments, 3));
  }

  /** The version constructor's negative-number check can never fire: every segment comes before the first '-'. */
  lemma ParseNeverOutOfRange(throwIfEmpty: bool, s: string)
    ensures ParseVersion(throwIfEmpty, s).Err? ==>
              ParseVersion(throwIfEmpty, s).error in {ArgumentNull, Format, Overflow}
    ensures ParseVersion(throwIfEmpty, s) == Err(ArgumentNull) <==> throwIfEmpty && IsBlank(s)
  {
    if !IsBlank(s) {
      ParseCanonicalErrors(Split(s, '-')[0]);
    }
  }

  /** A value the renderer and the parser agree on. */
  predicate RoundTrips(v: VersionInformation) {
    && AllDigits(v.dynamicSuffix)
    && '-' !in v.fixedSuffix
    && IsTrimmed(v.fixedSuffix)
    && (v.fixedSuffix == [] || !IsDigit(v.fixedSuffix[|v.fixedSuffix| - 1]))
  }

  lemma ParseComponent(n: Component)
    ensures ParseInt32(NatToString(n)) == Ok(n)
  {
    ParseIntToString(n);
  }

  lemma ParseSegmentsOfComponents(c: Version)
    ensures ParseSegments(NatToString(c.major), NatToString(c.minor), NatToString(c.build), NatToString(c.revision))
         == Ok(c)
  {
    ParseComponent(c.major);
    ParseComponent(c.minor);
    ParseComponent(c.build);
    ParseComponent(c.revision);
  }

  lemma ParseCanonicalFull(c: Version)
    ensures ParseCanonical(FullCanonical(c)) == Ok(c)
  {
    FullCanonicalSegments(c);
    ParseFourSegments(FullCanonical(c), c);
  }

  lemma ParseCanonicalShort(c: Version)
    requires c.revision == 0
    ensures ParseCanonical(ShortCanonical(c)) == Ok(c)
  {
    ShortCanonicalSegments(c);
    ParseThreeSegments(ShortCanonical(c), c);
  }

  /** A rendered component is its own trimmed segment. */
  lemma SegmentOfRendered(segments: seq<string>, i: nat, n: nat)
    requires i < |segments| && segments[i] == NatToString(n)
    ensures Segment(segments, i) == NatToString(n)
  {
    NatToStringPlain(n);
    TrimOfTrimmed(segments[i]);
  }

  /** A numeric part made of the four rendered components parses to them. */
  lemma ParseFourSegments(numeric: string, c: Version)
    requires Split(numeric, '.') == [NatToString(c.major), NatToString(c.minor), NatToString(c.build), NatToString(c.revision)]
    ensures ParseCanonical(numeric) == Ok(c)
  {
    var segments := Split(numeric, '.');
    SegmentOfRendered(segments, 0, c.major);
    SegmentOfRendered(segments, 1, c.minor);
    SegmentOfRendered(segments, 2, c.build);
    SegmentOfRendered(segments, 3, c.revision);
    ParseSegmentsOfComponents(c);
  }

  /** A numeric part made of three rendered components parses with revision 0. */
  lemma ParseThreeSegments(numeric: string, c: Version)
    requires c.revision == 0
    requires Split(numeric, '.') == [NatToString(c.major), NatToString(c.minor), NatToString(c.build)]
    ensures ParseCanonical(numeric) == Ok(c)
  {
    var segments := Split(numeric, '.');
    SegmentOfRendered(segments, 0, c.major);
    SegmentOfRendered(segments, 1, c.minor);
    SegmentOfRendered(segments, 2, c.build);
    assert Segment(segments, 3) == NatToString(0);
    ParseSegmentsOfComponents(c);
  }

  /** A string with no '-' is all numeric part, with empty suffixes. */
  lemma ParseWithoutDash(numeric: string)
    requires '-' !in numeric
    ensures ParseNonBlank(numeric)
         == (var c :- ParseCanonical(numeric); Ok(VersionInformation(c, "", "")))
  {
    assert Split(numeric, '-') == [numeric];
  }

  /** What FromString builds from a numeric piece and a suffix piece. */
  function FromPieces(numeric: string, suffix: string): Result<VersionInformation> {
    var c :- ParseCanonical(numeric);
    var (f, d) := SplitSuffix(Trim(suffix));
    Ok(VersionInformation(c, d, f))
  }

  /** The result depends on the first two '-'-separated pieces only. */
  lemma ParsePieces(s: string)
    requires |Split(s, '-')| > 1
    ensures ParseNonBlank(s) == FromPieces(Split(s, '-')[0], Split(s, '-')[1])
  {
  }

  /** numeric-suffix, neither holding a '-': the suffix is trimmed and cut at its digit run. */
  lemma ParseWithSuffix(numeric: string, suffix: string)
    requires '-' !in numeric && '-' !in suffix
    ensures ParseNonBlank(numeric + "-" + suffix) == FromPieces(numeric, suffix)
  {
    SplitAt(numeric, '-', suffix);
    assert Split(suffix, '-') == [suffix];
    ParsePieces(numeric + "-" + suffix);
  }

  /** A non-blank prefix makes the whole string non-blank. */
  lemma NonBlankPrefix(a: string, b: string)
    requires !IsBlank(a)
    ensures !IsBlank(a + b)
  {
    var j :| 0 <= j < |a| && !IsWhite(a[j]);
    assert (a + b)[j] == a[j];
  }

  /** A string that is blank and all digits is empty. */
  lemma BlankDigitsEmpty(s: string)
    ensures AllDigits(s) && IsBlank(s) ==> s == []
  {
    if |s| > 0 {
      assert !(IsDigit(s[0]) && IsWhite(s[0]));
    }
  }

  lemma ParseToStringRelease(throwIfEmpty: bool, v: VersionInformation)
    requires RoundTrips(v) && !IsPrerelease(v)
    ensures ParseVersion(throwIfEmpty, ToString(v)) == Ok(v)
  {
    var c := v.canonicalPart;
    assert v.fixedSuffix == [];
    BlankDigitsEmpty(v.dynamicSuffix);
    if c.revision == 0 {
      ShortCanonicalSegments(c);
      ParseCanonicalShort(c);
      ParseCanonicalOnly(throwIfEmpty, ShortCanonical(c), c);
    } else {
      FullCanonicalSegments(c);
      ParseCanonicalFull(c);
      ParseCanonicalOnly(throwIfEmpty, FullCanonical(c), c);
    }
  }

  /** A dash-free string opening with a digit reads as its canonical part, with no suffix. */
  lemma ParseCanonicalOnly(throwIfEmpty: bool, s: string, c: Version)
    requires s != [] && IsDigit(s[0]) && '-' !in s && ParseCanonical(s) == Ok(c)
    ensures ParseVersion(throwIfEmpty, s) == Ok(VersionInformation(c, "", ""))
  {
    assert ParseVersion(throwIfEmpty, s) == ParseNonBlank(s) by {
      assert !IsBlank(s) by { assert !IsWhite(s[0]); }
    }
    ParseWithoutDash(s);
  }

  /** The suffix of a round-tripping prerelease survives the suffix split unchanged. */
  lemma SuffixRoundTrip(v: VersionInformation)
    requires RoundTrips(v) && IsPrerelease(v)
    ensures '-' !in v.fixedSuffix + v.dynamicSuffix
    ensures SplitSuffix(Trim(v.fixedSuffix + v.dynamicSuffix)) == (v.fixedSuffix, v.dynamicSuffix)
  {
    var suffix := v.fixedSuffix + v.dynamicSuffix;
    assert '-' !in suffix by {
      assert forall j :: 0 <= j < |v.dynamicSuffix| ==> IsDigit(v.dynamicSuffix[j]);
    }
    assert IsTrimmed(suffix) by {
      if v.fixedSuffix == [] {
        assert v.dynamicSuffix != [] && IsDigit(suffix[0]) && IsDigit(suffix[|suffix| - 1]);
      } else if v.dynamicSuffix != [] {
        assert IsDigit(suffix[|suffix| - 1]);
      }
    }
    TrimOfTrimmed(suffix);
    SplitSuffixUnique(v.fixedSuffix, v.dynamicSuffix);
  }

  lemma ParseToStringPrerelease(throwIfEmpty: bool, v: VersionInformation)
    requires RoundTrips(v) && IsPrerelease(v)
    ensures ParseVersion(throwIfEmpty, ToString(v)) == Ok(v)
  {
    var c := v.canonicalPart;
    var full := FullCanonical(c);
    var suffix := v.fixedSuffix + v.dynamicSuffix;
    var s := full + "-" + suffix;
    assert ToString(v) == s by {
      ToStringPrerelease(v);
      assert full + "-" + v.fixedSuffix + v.dynamicSuffix == s;
    }
    assert !IsBlank(s) by {
      FullCanonicalSegments(c);
      assert IsDigit(s[0]);
    }
    FullCanonicalSegments(c);
    SuffixRoundTrip(v);
    ParseWithSuffix(full, suffix);
    ParseCanonicalFull(c);
  }

  /** Parsing the rendering of a value gives the value back, whichever ShouldThrowIfEmpty is. */
  lemma ParseToString(throwIfEmpty: bool, v: VersionInformation)
    requires RoundTrips(v)
    ensures ParseVersion(throwIfEmpty, ToString(v)) == Ok(v)
  {
    if IsPrerelease(v) {
      ParseToStringPrerelease(throwIfEmpty, v);
    } else {
      ParseToStringRelease(throwIfEmpty, v);
    }
  }

  /** The characters a rendering is made of: digits, '.', '-' and those of the fixed suffix. */
  predicate RenderedFrom(s: string, fixedPart: string) {
    forall c <- s :: IsDigit(c) || c == '.' || c == '-' || c in fixedPart
  }

  /** A decimal rendering is all digits. */
  lemma DecimalAlphabet(n: nat, fixedPart: string)
    ensures RenderedFrom(NatToString(n), fixedPart)
  {
    var d := NatToString(n);
    forall c <- d
      ensures IsDigit(c)
    {
      var i :| 0 <= i < |d| && d[i] == c;
    }
  }

  lemma CanonicalAlphabet(c: Version, fixedPart: string)
    ensures RenderedFrom(ShortCanonical(c), fixedPart)
    ensures RenderedFrom(FullCanonical(c), fixedPart)
  {
    DecimalAlphabet(c.major, fixedPart);
    DecimalAlphabet(c.minor, fixedPart);
    DecimalAlphabet(c.build, fixedPart);
    DecimalAlphabet(c.revision, fixedPart);
  }

  /** The rendering of a value whose dynamic suffix is all digits is drawn from that alphabet. */
  lemma RenderedAlphabet(v: VersionInformation)
    requires AllDigits(v.dynamicSuffix)
    ensures RenderedFrom(ToString(v), v.fixedSuffix)
  {
    CanonicalAlphabet(v.canonicalPart, v.fixedSuffix);
    var d := v.dynamicSuffix;
    forall c <- d
      ensures IsDigit(c)
    {
      var i :| 0 <= i < |d| && d[i] == c;
    }
  }

  /** Both canonical forms start and end with a digit. */
  lemma CanonicalEnds(c: Version)
    ensures IsDigit(ShortCanonical(c)[0]) && IsDigit(ShortCanonical(c)[|ShortCanonical(c)| - 1])
    ensures IsDigit(FullCanonical(c)[0]) && IsDigit(FullCanonical(c)[|FullCanonical(c)| - 1])
  {
    var ma, bu, re := NatToString(c.major), NatToString(c.build), NatToString(c.revision);
    var short, full := ShortCanonical(c), FullCanonical(c);
    assert short[0] == ma[0] && short[|short| - 1] == bu[|bu| - 1];
    assert full[0] == ma[0] && full[|full| - 1] == re[|re| - 1];
  }

  /** The rendering of a round-tripping value is trimmed and never blank. */
  lemma RenderedTrimmed(v: VersionInformation)
    requires RoundTrips(v)
    ensures IsTrimmed(ToString(v)) && !IsBlank(ToString(v))
  {
    var s := ToString(v);
    CanonicalEnds(v.canonicalPart);
    if IsPrerelease(v) {
      var full := FullCanonical(v.canonicalPart);
      ToStringPrerelease(v);
      assert s[0] == full[0];
      if v.dynamicSuffix != [] {
        assert s[|s| - 1] == v.dynamicSuffix[|v.dynamicSuffix| - 1];
      } else {
        assert v.fixedSuffix != [];
        assert s[|s| - 1] == v.fixedSuffix[|v.fixedSuffix| - 1];
      }
    }
    assert !IsWhite(s[0]);
  }

  /** Everything after the second '-' is ignored. */
  lemma ParseIgnoresLaterPieces(throwIfEmpty: bool, numeric: string, suffix: string, rest: string)
    requires '-' !in numeric && '-' !in suffix && !IsBlank(numeric)
    ensures ParseVersion(throwIfEmpty, numeric + "-" + suffix + "-" + rest)
         == ParseVersion(throwIfEmpty, numeric + "-" + suffix)
  {
    var tail := suffix + "-" + rest;
    var long := numeric + "-" + tail;
    assert numeric + "-" + suffix + "-" + rest == long;
    assert numeric + "-" + suffix == numeric + ("-" + suffix);
    NonBlankPrefix(numeric, "-" + tail);
    NonBlankPrefix(numeric, "-" + suffix);
    SplitAt(numeric, '-', tail);
    SplitAt(suffix, '-', rest);
    assert Split(long, '-')[0] == numeric && Split(long, '-')[1] == suffix;
    ParsePieces(long);
    ParseWithSuffix(numeric, suffix);
  }

  /** Segments beyond the fourth are ignored. */
  lemma ParseIgnoresExtraSegments(numeric: string, extra: string)
    requires '.' !in extra && |Split(numeric, '.')| >= 4
    ensures ParseCanonical(numeric + "." + extra) == ParseCanonical(numeric)
  {
    SplitSnoc(numeric, '.', extra);
    var segments := Split(numeric, '.');
    var longer := Split(numeric + "." + extra, '.');
    assert forall i: nat | i < 4 :: Segment(longer, i) == Segment(segments, i);
  }

  /** Only major and minor given: build and revision read as 0. */
  lemma ParseMajorMinorOnly(major: Component, minor: Component)
    ensures ParseCanonical(NatToString(major) + "." + NatToString(minor)) == Ok(Version(major, minor, 0, 0))
  {
    var a, b := NatToString(major), NatToString(minor);
    NatToStringPlain(major);
    NatToStringPlain(minor);
    SplitAt(a, '.', b);
    assert Split(b, '.') == [b];
    TrimOfTrimmed(a);
    TrimOfTrimmed(b);
    var segments := Split(a + "." + b, '.');
    assert Segment(segments, 0) == a && Segment(segments, 1) == b;
    assert Segment(segments, 2) == "0" == Segment(segments, 3);
    ParseComponent(major);
    ParseComponent(minor);
    ParseComponent(0);
    assert NatToString(0) == "0";
  }

  /** A non-blank string without '-' parses as its canonical part, with empty suffixes. */
  lemma ParseDashFree(throwIfEmpty: bool, s: string, c: Version)
    requires '-' !in s && !IsBlank(s) && ParseCanonical(s) == Ok(c)
    ensures ParseVersion(throwIfEmpty, s) == Ok(VersionInformation(c, "", ""))
  {
    ParseWithoutDash(s);
  }

  /** Joining two dash-free strings with '.' gives a dash-free string whose start is the first one's. */
  lemma JoinedSegments(a: string, b: string)
    requires '-' !in a && '-' !in b && !IsBlank(a)
    ensures '-' !in a + "." + b && !IsBlank(a + "." + b)
  {
    NonBlankPrefix(a, "." + b);
    assert a + "." + b == a + ("." + b);
  }

  /** "major.minor" reads as major.minor.0.0 with no suffix. */
  lemma ParseVersionMajorMinorOnly(throwIfEmpty: bool, major: Component, minor: Component)
    ensures ParseVersion(throwIfEmpty, NatToString(major) + "." + NatToString(minor))
         == Ok(VersionInformation(Version(major, minor, 0, 0), "", ""))
  {
    NatToStringPlain(major);
    NatToStringPlain(minor);
    ParseMajorMinorOnly(major, minor);
    JoinedSegments(NatToString(major), NatToString(minor));
    ParseDashFree(throwIfEmpty, NatToString(major) + "." + NatToString(minor), Version(major, minor, 0, 0));
  }

  lemma ExampleSuffixes()
    ensures SplitSuffix("alpha123") == ("alpha", "123")
    ensures SplitSuffix("rc") == ("rc", "")
    ensures SplitSuffix("alpha001") == ("alpha", "001")
    ensures SplitSuffix("123") == ("", "123")
  {
    SplitSuffixUnique("alpha", "123");
    assert "alpha" + "123" == "alpha123";
    SplitSuffixUnique("rc", "");
    assert "rc" + "" == "rc";
    SplitSuffixUnique("alpha", "001");
    assert "alpha" + "001" == "alpha001";
    SplitSuffixUnique("", "123");
    assert "" + "123" == "123";
  }
}
