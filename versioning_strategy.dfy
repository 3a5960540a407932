/**
 * The versioning strategies behind one interface, and the three-way comparison
 * built on their less-than and greater-than tests (a null value sorts first).
 */
module Strategies {
  import opened Wrappers
  import opened Versions
  import opened BumpTypes
  import CV = CanonicalVersioning
  import RC = ReleaseCandidateVersioning

  /** The two strategies; only release-candidate versioning reads the default fixed suffix. */
  datatype Strategy = SimpleCanonical | ReleaseCandidate(defaultFixedSuffix: string)

  function Increment(s: Strategy, v: VersionInformation, bump: VersionBumpType): Result<VersionInformation> {
    match s
    case SimpleCanonical => CV.Increment(v, bump)
    case ReleaseCandidate(suffix) => RC.Increment(suffix, v, bump)
  }

  function Decrement(s: Strategy, v: VersionInformation, bump: VersionBumpType): Result<VersionInformation> {
    match s
    case SimpleCanonical => CV.Decrement(v, bump)
    case ReleaseCandidate(_) => RC.Decrement(v, bump)
  }

  function IsLessThan(s: Strategy, a: VersionInformation, b: VersionInformation): Result<bool> {
    match s
    case SimpleCanonical => Ok(CV.IsLessThan(a, b))
    case ReleaseCandidate(_) => RC.IsLessThan(a, b)
  }

  function IsGreaterThan(s: Strategy, a: VersionInformation, b: VersionInformation): Result<bool> {
    match s
    case SimpleCanonical => Ok(CV.IsGreaterThan(a, b))
    case ReleaseCandidate(_) => RC.IsGreaterThan(a, b)
  }

  function IsEqualTo(s: Strategy, a: VersionInformation, b: VersionInformation): Result<bool> {
    match s
    case SimpleCanonical => Ok(CV.IsEqualTo(a, b))
    case ReleaseCandidate(_) => RC.IsEqualTo(a, b)
  }

  /** IComparer.Compare: nulls first, then -1 if less, else 1 if greater, else 0. */
  function Compare(s: Strategy, x: Option<VersionInformation>, y: Option<VersionInformation>): Result<int> {
    if x.None? then Ok(if y.None? then 0 else -1)
    else if y.None? then Ok(1)
    else
      var less :- IsLessThan(s, x.value, y.value);
      if less then Ok(-1)
      else
        var greater :- IsGreaterThan(s, x.value, y.value);
        if greater then Ok(1) else Ok(0)
  }

  lemma CompareNulls(s: Strategy, v: VersionInformation)
    ensures Compare(s, Option.None, Option.None) == Ok(0)
    ensures Compare(s, Option.None, Some(v)) == Ok(-1)
    ensures Compare(s, Some(v), Option.None) == Ok(1)
  {
  }

  /** The less and greater tests are both defined or both fail, and never both hold. */
  lemma LessAndGreaterExclusive(s: Strategy, a: VersionInformation, b: VersionInformation)
    ensures IsLessThan(s, a, b).Ok? <==> IsGreaterThan(s, a, b).Ok?
    ensures IsLessThan(s, a, b).Ok? ==> !(IsLessThan(s, a, b).value && IsGreaterThan(s, a, b).value)
  {
    VersionTrichotomy(a.canonicalPart, b.canonicalPart);
  }

  /** Swapping the arguments negates the comparison, and one fails exactly when the other does. */
  lemma CompareAntisymmetric(s: Strategy, x: Option<VersionInformation>, y: Option<VersionInformation>)
    ensures Compare(s, x, y).Ok? <==> Compare(s, y, x).Ok?
    ensures Compare(s, x, y).Ok? ==> Compare(s, x, y).value == -Compare(s, y, x).value
  {
    if x.Some? && y.Some? {
      var a, b := x.value, y.value;
      LessAndGreaterExclusive(s, a, b);
      LessAndGreaterExclusive(s, b, a);
      match s
      case SimpleCanonical =>
        CV.GreaterIsConverseOfLess(a, b);
        CV.GreaterIsConverseOfLess(b, a);
      case ReleaseCandidate(_) =>
        RC.GreaterIsConverseOfLess(a, b);
        RC.GreaterIsConverseOfLess(b, a);
    }
  }

  /** A successful comparison is -1 exactly when less-than holds and 1 exactly when greater-than holds. */
  lemma CompareAgreesWithTests(s: Strategy, a: VersionInformation, b: VersionInformation)
    ensures Compare(s, Some(a), Some(b)) == Ok(-1) <==> IsLessThan(s, a, b) == Ok(true)
    ensures Compare(s, Some(a), Some(b)) == Ok(1) <==> IsGreaterThan(s, a, b) == Ok(true)
    ensures Compare(s, Some(a), Some(b)).Ok? <==> IsLessThan(s, a, b).Ok?
  {
    LessAndGreaterExclusive(s, a, b);
  }

  /** Canonical values whose suffixes differ are neither less nor greater, so they compare as 0. */
  lemma CanonicalDifferentSuffixesCompareEqual(a: VersionInformation, b: VersionInformation)
    requires !CV.SameNonCanonicalComponents(a, b)
    ensures Compare(SimpleCanonical, Some(a), Some(b)) == Ok(0)
  {
  }

  /** Under release-candidate versioning a successful comparison is 0 exactly when IsEqualTo holds. */
  lemma ReleaseCandidateCompareZeroIsEquality(suffix: string, a: VersionInformation, b: VersionInformation)
    requires RC.ParseBoth(a, b).Ok?
    ensures Compare(ReleaseCandidate(suffix), Some(a), Some(b)) == Ok(0)
        <==> IsEqualTo(ReleaseCandidate(suffix), a, b) == Ok(true)
  {
    VersionTrichotomy(a.canonicalPart, b.canonicalPart);
  }

  /** Under canonical versioning with agreeing suffixes, comparing as 0 is exactly IsEqualTo. */
  lemma CanonicalCompareZeroIsEquality(a: VersionInformation, b: VersionInformation)
    requires CV.SameNonCanonicalComponents(a, b)
    ensures Compare(SimpleCanonical, Some(a), Some(b)) == Ok(0) <==> CV.IsEqualTo(a, b)
  {
    CV.Trichotomy(a, b);
  }
}
