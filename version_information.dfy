/**
 * The version value: a System.Version canonical part (major.minor.build.revision)
 * plus a fixed suffix ("beta") and a dynamic suffix ("12"), and its three renderings.
 */
module Versions {
  import opened Wrappers
  import opened Text

  /** A System.Version component: the constructor rejects negative numbers, and it is an Int32. */
  type Component = x: int | 0 <= x <= MaxInt32

  /** System.Version built with all four components. */
  datatype Version = Version(major: Component, minor: Component, build: Component, revision: Component)

  /** The VersionInformation record; its equality is field-wise, with ordinal string equality. */
  datatype VersionInformation = VersionInformation(canonicalPart: Version, dynamicSuffix: string, fixedSuffix: string)

  /** new Version(major, minor, build, revision): any negative argument is an ArgumentOutOfRangeException. */
  function MakeVersion(major: int, minor: int, build: int, revision: int): (r: Result<Version>)
    requires major <= MaxInt32 && minor <= MaxInt32 && build <= MaxInt32 && revision <= MaxInt32
    ensures r.Ok? <==> 0 <= major && 0 <= minor && 0 <= build && 0 <= revision
    ensures r.Ok? ==> r.value.major == major && r.value.minor == minor
                      && r.value.build == build && r.value.revision == revision
    ensures r.Err? ==> r.error == ArgumentOutOfRange
  {
    if major < 0 || minor < 0 || build < 0 || revision < 0 then Err(ArgumentOutOfRange)
    else Ok(Version(major, minor, build, revision))
  }

  /** Version.CompareTo: major, then minor, then build, then revision decide; -1, 0 or 1. */
  function CompareTo(a: Version, b: Version): (r: int)
    ensures r == 0 <==> a == b
    ensures -1 <= r <= 1
  {
    if a.major != b.major then (if a.major > b.major then 1 else -1)
    else if a.minor != b.minor then (if a.minor > b.minor then 1 else -1)
    else if a.build != b.build then (if a.build > b.build then 1 else -1)
    else if a.revision != b.revision then (if a.revision > b.revision then 1 else -1)
    else 0
  }

  /** The Version operator >. */
  predicate Greater(a: Version, b: Version) {
    CompareTo(a, b) > 0
  }

  /** The Version operator <. */
  predicate Less(a: Version, b: Version) {
    CompareTo(a, b) < 0
  }

  /** Swapping the operands negates the comparison, so a > b is exactly b < a. */
  lemma CompareToAntisymmetric(a: Version, b: Version)
    ensures CompareTo(a, b) == -CompareTo(b, a)
    ensures Greater(a, b) <==> Less(b, a)
  {
  }

  /** The Version order is transitive. */
  lemma LessTransitive(a: Version, b: Version, c: Version)
    requires Less(a, b) && Less(b, c)
    ensures Less(a, c)
  {
  }

  /** Exactly one of a < b, a == b and a > b holds. */
  lemma VersionTrichotomy(a: Version, b: Version)
    ensures Less(a, b) || a == b || Greater(a, b)
    ensures !(Less(a, b) && Greater(a, b))
  {
  }

  /** new VersionInformation(): 0.0.0.0 with both suffixes empty. */
  function Zero(): (v: VersionInformation)
    ensures !IsPrerelease(v)
    ensures AsFullCanonicalString(v) == "0.0.0.0"
    ensures ToString(v) == "0.0.0"
  {
    VersionInformation(Version(0, 0, 0, 0), "", "")
  }

  /** A prerelease has a non-blank dynamic or fixed suffix. */
  predicate IsPrerelease(v: VersionInformation) {
    !IsBlank(v.dynamicSuffix) || !IsBlank(v.fixedSuffix)
  }

  /** "{major}.{minor}.{build}.{revision}". */
  function FullCanonical(c: Version): string {
    NatToString(c.major) + "." + NatToString(c.minor) + "." + NatToString(c.build) + "." + NatToString(c.revision)
  }

  /** "{major}.{minor}.{build}", the short form. */
  function ShortCanonical(c: Version): string {
    NatToString(c.major) + "." + NatToString(c.minor) + "." + NatToString(c.build)
  }

  function AsFullCanonicalString(v: VersionInformation): string {
    FullCanonical(v.canonicalPart)
  }

  function AsPrereleaseString(v: VersionInformation): string {
    if !IsPrerelease(v) then AsFullCanonicalString(v)
    else AsFullCanonicalString(v) + "-" + v.fixedSuffix + v.dynamicSuffix
  }

  function ToString(v: VersionInformation): string {
    if !IsPrerelease(v) then
      if v.canonicalPart.revision == 0 then ShortCanonical(v.canonicalPart) else AsFullCanonicalString(v)
    else
      AsPrereleaseString(v)
  }

  /** A decimal rendering holds no separator of the version grammar and no whitespace. */
  lemma NatToStringPlain(n: nat)
    ensures '.' !in NatToString(n) && '-' !in NatToString(n)
    ensures IsTrimmed(NatToString(n)) && !IsBlank(NatToString(n))
  {
    var s := NatToString(n);
    assert IsDigit(s[0]);
    assert forall i :: 0 <= i < |s| ==> IsDigit(s[i]);
  }

  /** The short form splits at '.' into major, minor and build. */
  lemma ShortCanonicalSegments(c: Version)
    ensures Split(ShortCanonical(c), '.') == [NatToString(c.major), NatToString(c.minor), NatToString(c.build)]
    ensures '-' !in ShortCanonical(c)
    ensures ShortCanonical(c) != [] && IsDigit(ShortCanonical(c)[0])
  {
    var a, b, d := NatToString(c.major), NatToString(c.minor), NatToString(c.build);
    NatToStringPlain(c.major);
    NatToStringPlain(c.minor);
    NatToStringPlain(c.build);
    assert Split(a, '.') == [a];
    SplitSnoc(a, '.', b);
    SplitSnoc(a + "." + b, '.', d);
    assert IsDigit(a[0]);
  }

  /** The full canonical form splits at '.' into exactly the four decimal components. */
  lemma FullCanonicalSegments(c: Version)
    ensures Split(FullCanonical(c), '.')
         == [NatToString(c.major), NatToString(c.minor), NatToString(c.build), NatToString(c.revision)]
    ensures '-' !in FullCanonical(c)
    ensures FullCanonical(c) != [] && IsDigit(FullCanonical(c)[0])
  {
    ShortCanonicalSegments(c);
    NatToStringPlain(c.revision);
    SplitSnoc(ShortCanonical(c), '.', NatToString(c.revision));
    assert FullCanonical(c) == ShortCanonical(c) + "." + NatToString(c.revision);
  }

  /** The full canonical string depends on the canonical part alone, never on the suffixes. */
  lemma FullCanonicalIgnoresSuffixes(v: VersionInformation, w: VersionInformation)
    ensures AsFullCanonicalString(v) == AsFullCanonicalString(w) <==> v.canonicalPart == w.canonicalPart
  {
    FullCanonicalSegments(v.canonicalPart);
    FullCanonicalSegments(w.canonicalPart);
    if AsFullCanonicalString(v) == AsFullCanonicalString(w) {
      var c, d := v.canonicalPart, w.canonicalPart;
      NatToStringValue(c.major);
      NatToStringValue(d.major);
      NatToStringValue(c.minor);
      NatToStringValue(d.minor);
      NatToStringValue(c.build);
      NatToStringValue(d.build);
      NatToStringValue(c.revision);
      NatToStringValue(d.revision);
    }
  }

  /** A release with revision 0 renders as the full canonical string minus its ".0". */
  lemma ToStringReleaseShort(v: VersionInformation)
    requires !IsPrerelease(v) && v.canonicalPart.revision == 0
    ensures ToString(v) + ".0" == AsFullCanonicalString(v)
  {
  }

  /** A release with a non-zero revision renders in full. */
  lemma ToStringReleaseFull(v: VersionInformation)
    requires !IsPrerelease(v) && v.canonicalPart.revision != 0
    ensures ToString(v) == AsFullCanonicalString(v)
  {
  }

  /** A prerelease always renders the full canonical part, then '-', the fixed and the dynamic suffix. */
  lemma ToStringPrerelease(v: VersionInformation)
    requires IsPrerelease(v)
    ensures ToString(v) == AsFullCanonicalString(v) + "-" + v.fixedSuffix + v.dynamicSuffix
    ensures '-' in ToString(v)
  {
    var full := AsFullCanonicalString(v);
    assert ToString(v)[|full|] == '-';
  }

  /** Both suffixes blank means the prerelease rendering falls back to the full canonical string. */
  lemma AsPrereleaseOfRelease(v: VersionInformation)
    requires IsBlank(v.dynamicSuffix) && IsBlank(v.fixedSuffix)
    ensures AsPrereleaseString(v) == AsFullCanonicalString(v)
  {
  }
}
