/**
 * Canonical versioning: a bump raises one of major, minor, build or revision,
 * resets the components below it and drops both suffixes. Values compare by
 * their canonical part, and only when their suffixes agree case-insensitively.
 */
module CanonicalVersioning {
  import opened Wrappers
  import opened Text
  import opened Versions
  import opened BumpTypes

  /** Unchecked Int32 ++: int.MaxValue wraps around to int.MinValue. */
  function WrappingIncrement(x: Component): (y: int)
    ensures MinInt32 <= y <= MaxInt32
    ensures y == if x == MaxInt32 then MinInt32 else x + 1
  {
    if x == MaxInt32 then MinInt32 else x + 1
  }

  /** A new value with the given canonical part and both suffixes empty. */
  function Released(c: Result<Version>): Result<VersionInformation> {
    var canonical :- c;
    Ok(VersionInformation(canonical, "", ""))
  }

  function Increment(v: VersionInformation, bump: VersionBumpType): Result<VersionInformation> {
    var c := v.canonicalPart;
    match bump
    case None => Ok(v)
    case Major => Released(MakeVersion(WrappingIncrement(c.major), 0, 0, 0))
    case Minor => Released(MakeVersion(c.major, WrappingIncrement(c.minor), 0, 0))
    case Build => Released(MakeVersion(c.major, c.minor, WrappingIncrement(c.build), 0))
    case Revision => Released(MakeVersion(c.major, c.minor, c.build, WrappingIncrement(c.revision)))
    case Suffix => Err(NotSupported)
  }

  function Decrement(v: VersionInformation, bump: VersionBumpType): Result<VersionInformation> {
    var c := v.canonicalPart;
    match bump
    case None => Ok(v)
    case Major =>
      if c.major < 1 then Err(ArgumentOutOfRange) else Released(MakeVersion(c.major - 1, 0, 0, 0))
    case Minor =>
      if c.minor < 1 then Err(ArgumentOutOfRange) else Released(MakeVersion(c.major, c.minor - 1, 0, 0))
    case Build =>
      if c.build < 1 then Err(ArgumentOutOfRange) else Released(MakeVersion(c.major, c.minor, c.build - 1, 0))
    case Revision =>
      if c.revision < 1 then Err(ArgumentOutOfRange) else Released(MakeVersion(c.major, c.minor, c.build, c.revision - 1))
    case Suffix => Err(NotSupported)
  }

  /** Both suffixes equal under ordinal case-insensitive comparison. */
  predicate SameNonCanonicalComponents(a: VersionInformation, b: VersionInformation) {
    EqualsIgnoreCase(a.fixedSuffix, b.fixedSuffix) && EqualsIgnoreCase(a.dynamicSuffix, b.dynamicSuffix)
  }

  predicate IsGreaterThan(a: VersionInformation, b: VersionInformation) {
    Greater(a.canonicalPart, b.canonicalPart) && SameNonCanonicalComponents(a, b)
  }

  predicate IsLessThan(a: VersionInformation, b: VersionInformation) {
    Less(a.canonicalPart, b.canonicalPart) && SameNonCanonicalComponents(a, b)
  }

  predicate IsEqualTo(a: VersionInformation, b: VersionInformation) {
    a.canonicalPart == b.canonicalPart && SameNonCanonicalComponents(a, b)
  }

  /** The bumps that target one canonical component. */
  predicate IsComponentBump(bump: VersionBumpType) {
    bump.Major? || bump.Minor? || bump.Build? || bump.Revision?
  }

  /** Position of the targeted component: major 0, minor 1, build 2, revision 3. */
  function Rank(bump: VersionBumpType): nat
    requires IsComponentBump(bump)
  {
    match bump
    case Major => 0
    case Minor => 1
    case Build => 2
    case Revision => 3
  }

  /** The i-th component of a version. */
  function Get(c: Version, i: nat): Component
    requires i < 4
  {
    if i == 0 then c.major else if i == 1 then c.minor else if i == 2 then c.build else c.revision
  }

  /** None leaves the value exactly as it is, in both directions. */
  lemma NoneIsIdentity(v: VersionInformation)
    ensures Increment(v, VersionBumpType.None) == Ok(v)
    ensures Decrement(v, VersionBumpType.None) == Ok(v)
  {
  }

  /** Suffix bumps are not supported by canonical versioning. */
  lemma SuffixNotSupported(v: VersionInformation)
    ensures Increment(v, Suffix) == Err(NotSupported)
    ensures Decrement(v, Suffix) == Err(NotSupported)
  {
  }

  /**
   * A component bump below int.MaxValue adds one to the targeted component,
   * keeps the higher ones, zeroes the lower ones and empties both suffixes.
   */
  lemma IncrementResets(v: VersionInformation, bump: VersionBumpType)
    requires IsComponentBump(bump) && Get(v.canonicalPart, Rank(bump)) < MaxInt32
    ensures var r := Increment(v, bump);
            && r.Ok?
            && r.value.fixedSuffix == "" && r.value.dynamicSuffix == ""
            && forall i: nat | i < 4 ::
                 Get(r.value.canonicalPart, i)
                 == if i < Rank(bump) then Get(v.canonicalPart, i)
                    else if i == Rank(bump) then Get(v.canonicalPart, i) + 1
                    else 0
  {
  }

  /** At int.MaxValue the ++ wraps to a negative number, which the version constructor rejects. */
  lemma IncrementOverflow(v: VersionInformation, bump: VersionBumpType)
    requires IsComponentBump(bump) && Get(v.canonicalPart, Rank(bump)) == MaxInt32
    ensures Increment(v, bump) == Err(ArgumentOutOfRange)
  {
  }

  /**
   * A component bump of a positive component subtracts one from it, keeps the
   * higher ones, zeroes the lower ones and empties both suffixes.
   */
  lemma DecrementResets(v: VersionInformation, bump: VersionBumpType)
    requires IsComponentBump(bump) && Get(v.canonicalPart, Rank(bump)) >= 1
    ensures var r := Decrement(v, bump);
            && r.Ok?
            && r.value.fixedSuffix == "" && r.value.dynamicSuffix == ""
            && forall i: nat | i < 4 ::
                 Get(r.value.canonicalPart, i)
                 == if i < Rank(bump) then Get(v.canonicalPart, i)
                    else if i == Rank(bump) then Get(v.canonicalPart, i) - 1
                    else 0
  {
  }

  /** Decrementing a component that is already 0 is an ArgumentOutOfRangeException. */
  lemma DecrementAtZero(v: VersionInformation, bump: VersionBumpType)
    requires IsComponentBump(bump) && Get(v.canonicalPart, Rank(bump)) == 0
    ensures Decrement(v, bump) == Err(ArgumentOutOfRange)
  {
  }

  /** The value with the same canonical part and no suffixes. */
  function StripSuffixes(v: VersionInformation): VersionInformation {
    VersionInformation(v.canonicalPart, "", "")
  }

  /** A revision bump followed by a revision decrement only drops the suffixes. */
  lemma DecrementUndoesRevisionIncrement(v: VersionInformation)
    requires v.canonicalPart.revision < MaxInt32
    ensures Increment(v, Revision).Ok?
    ensures Decrement(Increment(v, Revision).value, Revision) == Ok(StripSuffixes(v))
  {
  }

  /** A revision decrement followed by a revision bump only drops the suffixes. */
  lemma IncrementUndoesRevisionDecrement(v: VersionInformation)
    requires v.canonicalPart.revision >= 1
    ensures Decrement(v, Revision).Ok?
    ensures Increment(Decrement(v, Revision).value, Revision) == Ok(StripSuffixes(v))
  {
  }

  /** a > b is exactly b < a. */
  lemma GreaterIsConverseOfLess(a: VersionInformation, b: VersionInformation)
    ensures IsGreaterThan(a, b) == IsLessThan(b, a)
  {
    CompareToAntisymmetric(a.canonicalPart, b.canonicalPart);
    assert SameNonCanonicalComponents(a, b) == SameNonCanonicalComponents(b, a);
  }

  /** With agreeing suffixes exactly one of less, equal and greater holds; otherwise none does. */
  lemma Trichotomy(a: VersionInformation, b: VersionInformation)
    ensures SameNonCanonicalComponents(a, b) ==>
              (IsLessThan(a, b) || IsEqualTo(a, b) || IsGreaterThan(a, b))
              && !(IsLessThan(a, b) && IsGreaterThan(a, b))
              && !(IsEqualTo(a, b) && (IsLessThan(a, b) || IsGreaterThan(a, b)))
    ensures !SameNonCanonicalComponents(a, b) ==>
              !IsLessThan(a, b) && !IsEqualTo(a, b) && !IsGreaterThan(a, b)
  {
    VersionTrichotomy(a.canonicalPart, b.canonicalPart);
  }

  /** Case-insensitive equality chains. */
  lemma EqualsIgnoreCaseTransitive(a: string, b: string, c: string)
    requires EqualsIgnoreCase(a, b) && EqualsIgnoreCase(b, c)
    ensures EqualsIgnoreCase(a, c)
  {
  }

  /** The less-than order is transitive. */
  lemma LessThanTransitive(a: VersionInformation, b: VersionInformation, c: VersionInformation)
    requires IsLessThan(a, b) && IsLessThan(b, c)
    ensures IsLessThan(a, c)
  {
    LessTransitive(a.canonicalPart, b.canonicalPart, c.canonicalPart);
    EqualsIgnoreCaseTransitive(a.fixedSuffix, b.fixedSuffix, c.fixedSuffix);
    EqualsIgnoreCaseTransitive(a.dynamicSuffix, b.dynamicSuffix, c.dynamicSuffix);
  }

  /**
   * A successful bump yields a value that is greater than the input exactly when
   * the input had no suffixes: the bump clears them and the order requires equal suffixes.
   */
  lemma IncrementIsGreater(v: VersionInformation, bump: VersionBumpType)
    requires IsComponentBump(bump) && Get(v.canonicalPart, Rank(bump)) < MaxInt32
    ensures Increment(v, bump).Ok?
    ensures IsGreaterThan(Increment(v, bump).value, v) <==> v.fixedSuffix == "" && v.dynamicSuffix == ""
  {
    IncrementResets(v, bump);
    var w := Increment(v, bump).value;
    var c, d := v.canonicalPart, w.canonicalPart;
    assert Greater(d, c) by {
      assert Get(d, 0) == Get(c, 0) || Rank(bump) == 0;
      assert Get(d, 1) == Get(c, 1) || Rank(bump) <= 1;
      assert Get(d, 2) == Get(c, 2) || Rank(bump) <= 2;
      assert Get(d, Rank(bump)) == Get(c, Rank(bump)) + 1;
    }
  }

  /** Suffixes compare case-insensitively: "beta" equals "BETA". */
  lemma EqualIgnoringCase()
    ensures IsEqualTo(VersionInformation(Version(1, 0, 0, 0), "", "beta"),
                      VersionInformation(Version(1, 0, 0, 0), "", "BETA"))
  {
  }
}
