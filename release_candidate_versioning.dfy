/**
 * Release-candidate versioning: the canonical part never changes; a bump
 * raises the integer held in the dynamic suffix. Values compare by canonical
 * part first and, on a tie, by the dynamic suffixes read as integers; the fixed
 * suffix plays no part in the order.
 */
module ReleaseCandidateVersioning {
  import opened Wrappers
  import opened Text
  import opened Versions
  import opened BumpTypes

  /** Unchecked Int32 ++ on the dynamic counter: int.MaxValue wraps around to int.MinValue. */
  function WrappingIncrement(x: int): (y: int)
    requires MinInt32 <= x <= MaxInt32
    ensures MinInt32 <= y <= MaxInt32
    ensures x < MaxInt32 ==> y == x + 1
  {
    if x == MaxInt32 then MinInt32 else x + 1
  }

  /**
   * The dynamic suffix is parsed only when it is not blank (a blank one counts as 0);
   * the default fixed suffix replaces the fixed one when both suffixes are blank;
   * any bump but Suffix is then a NotSupportedException.
   */
  function Increment(defaultFixedSuffix: string, v: VersionInformation, bump: VersionBumpType)
    : Result<VersionInformation>
  {
    if bump == VersionBumpType.None then Ok(v)
    else
      var counter :- if !IsBlank(v.dynamicSuffix) then ParseInt32(v.dynamicSuffix) else Ok(0);
      var fixedSuffix :=
        if IsBlank(v.fixedSuffix) && IsBlank(v.dynamicSuffix) then defaultFixedSuffix else v.fixedSuffix;
      if bump != Suffix then Err(NotSupported)
      else Ok(VersionInformation(v.canonicalPart, IntToString(WrappingIncrement(counter)), fixedSuffix))
  }

  /** The dynamic suffix is always parsed, before the bump kind is looked at. */
  function Decrement(v: VersionInformation, bump: VersionBumpType): Result<VersionInformation> {
    if bump == VersionBumpType.None then Ok(v)
    else
      var counter :- ParseInt32(v.dynamicSuffix);
      if bump != Suffix then Err(NotSupported)
      else if counter < 1 then Err(ArgumentOutOfRange)
      else Ok(VersionInformation(v.canonicalPart, IntToString(counter - 1), v.fixedSuffix))
  }

  /** Both dynamic suffixes parsed, the first one first. */
  function ParseBoth(a: VersionInformation, b: VersionInformation): Result<(int, int)> {
    var x :- ParseInt32(a.dynamicSuffix);
    var y :- ParseInt32(b.dynamicSuffix);
    Ok((x, y))
  }

  function IsGreaterThan(a: VersionInformation, b: VersionInformation): Result<bool> {
    if Greater(a.canonicalPart, b.canonicalPart) then Ok(true)
    else if a.canonicalPart == b.canonicalPart then
      var (x, y) :- ParseBoth(a, b);
      Ok(x > y)
    else Ok(false)
  }

  function IsLessThan(a: VersionInformation, b: VersionInformation): Result<bool> {
    if Less(a.canonicalPart, b.canonicalPart) then Ok(true)
    else if a.canonicalPart == b.canonicalPart then
      var (x, y) :- ParseBoth(a, b);
      Ok(x < y)
    else Ok(false)
  }

  function IsEqualTo(a: VersionInformation, b: VersionInformation): Result<bool> {
    if a.canonicalPart == b.canonicalPart then
      var (x, y) :- ParseBoth(a, b);
      Ok(x == y)
    else Ok(false)
  }

  lemma NoneIsIdentity(defaultFixedSuffix: string, v: VersionInformation)
    ensures Increment(defaultFixedSuffix, v, VersionBumpType.None) == Ok(v)
    ensures Decrement(v, VersionBumpType.None) == Ok(v)
  {
  }

  /**
   * A Suffix bump keeps the canonical part, keeps the fixed suffix (or takes the
   * default when both suffixes are blank) and writes the next counter in plain decimal.
   */
  lemma IncrementSuffix(defaultFixedSuffix: string, v: VersionInformation, n: int)
    requires n < MaxInt32
    requires ParseInt32(v.dynamicSuffix) == Ok(n) || (IsBlank(v.dynamicSuffix) && n == 0)
    ensures Increment(defaultFixedSuffix, v, Suffix)
         == Ok(VersionInformation(
                 v.canonicalPart,
                 IntToString(n + 1),
                 if IsBlank(v.fixedSuffix) && IsBlank(v.dynamicSuffix) then defaultFixedSuffix else v.fixedSuffix))
  {
    if IsBlank(v.dynamicSuffix) {
      ParseBlank(v.dynamicSuffix);
    }
  }

  /** "1.2.3.4" with a default fixed suffix "beta" becomes "1.2.3.4-beta1". */
  lemma IncrementTakesDefaultSuffix()
    ensures Increment("beta", VersionInformation(Version(1, 2, 3, 4), "", ""), Suffix)
         == Ok(VersionInformation(Version(1, 2, 3, 4), "1", "beta"))
    ensures ToString(VersionInformation(Version(1, 2, 3, 4), "1", "beta")) == "1.2.3.4-beta1"
  {
    assert IntToString(1) == "1";
    var v := VersionInformation(Version(1, 2, 3, 4), "1", "beta");
    assert IsPrerelease(v) by { assert !IsWhite(v.dynamicSuffix[0]); }
  }

  lemma Renderings()
    ensures NatToString(999) == "999" && NatToString(1000) == "1000"
  {
    assert NatToString(9) == "9";
    assert NatToString(99) == "99";
    assert NatToString(1) == "1";
    assert NatToString(10) == "10";
    assert NatToString(100) == "100";
  }

  lemma CounterOf999()
    ensures ParseInt32("999") == Ok(999)
  {
    Renderings();
    ParseIntToString(999);
  }

  /** "999" becomes "1000". */
  lemma IncrementCarries()
    ensures Increment("", VersionInformation(Version(1, 0, 0, 0), "999", "rc"), Suffix)
         == Ok(VersionInformation(Version(1, 0, 0, 0), "1000", "rc"))
  {
    var v := VersionInformation(Version(1, 0, 0, 0), "999", "rc");
    CounterOf999();
    assert !IsBlank(v.fixedSuffix) by { assert !IsWhite(v.fixedSuffix[0]); }
    IncrementSuffix("", v, 999);
    assert IntToString(1000) == "1000" by { Renderings(); }
  }

  /** Any bump other than None and Suffix is refused, after the dynamic suffix has been read. */
  lemma IncrementNotSupported(defaultFixedSuffix: string, v: VersionInformation, bump: VersionBumpType)
    requires bump != VersionBumpType.None && bump != Suffix
    requires IsBlank(v.dynamicSuffix) || ParseInt32(v.dynamicSuffix).Ok?
    ensures Increment(defaultFixedSuffix, v, bump) == Err(NotSupported)
  {
  }

  /** Decrement parses first: with a blank dynamic suffix every bump but None is a FormatException. */
  lemma DecrementBlankIsFormatError(v: VersionInformation, bump: VersionBumpType)
    requires bump != VersionBumpType.None && IsBlank(v.dynamicSuffix)
    ensures Decrement(v, bump) == Err(Format)
  {
    ParseBlank(v.dynamicSuffix);
  }

  /** A Suffix decrement lowers a positive counter by one and keeps everything else; at 0 or below it throws. */
  lemma DecrementSuffix(v: VersionInformation, n: int)
    requires ParseInt32(v.dynamicSuffix) == Ok(n)
    ensures n >= 1 ==> Decrement(v, Suffix) == Ok(VersionInformation(v.canonicalPart, IntToString(n - 1), v.fixedSuffix))
    ensures n < 1 ==> Decrement(v, Suffix) == Err(ArgumentOutOfRange)
  {
  }

  /** The counter read back from a value. */
  function Counter(v: VersionInformation): Result<int> {
    ParseInt32(v.dynamicSuffix)
  }

  /** Decrement then Increment restores the counter's numeric value and keeps the rest. */
  lemma IncrementUndoesDecrement(defaultFixedSuffix: string, v: VersionInformation, n: int)
    requires Counter(v) == Ok(n) && n >= 1
    ensures Decrement(v, Suffix).Ok?
    ensures var w := Decrement(v, Suffix).value;
            && Increment(defaultFixedSuffix, w, Suffix).Ok?
            && Counter(Increment(defaultFixedSuffix, w, Suffix).value) == Ok(n)
            && Increment(defaultFixedSuffix, w, Suffix).value.canonicalPart == v.canonicalPart
            && Increment(defaultFixedSuffix, w, Suffix).value.fixedSuffix == v.fixedSuffix
  {
    DecrementSuffix(v, n);
    var w := VersionInformation(v.canonicalPart, IntToString(n - 1), v.fixedSuffix);
    assert Decrement(v, Suffix) == Ok(w);
    IncrementRendered(defaultFixedSuffix, w, n - 1);
  }

  /** A Suffix bump of a counter written in decimal gives the next counter and keeps the rest. */
  lemma IncrementRendered(defaultFixedSuffix: string, w: VersionInformation, m: nat)
    requires w.dynamicSuffix == IntToString(m) && m < MaxInt32
    ensures Increment(defaultFixedSuffix, w, Suffix).Ok?
    ensures Counter(Increment(defaultFixedSuffix, w, Suffix).value) == Ok(m + 1)
    ensures Increment(defaultFixedSuffix, w, Suffix).value.canonicalPart == w.canonicalPart
    ensures Increment(defaultFixedSuffix, w, Suffix).value.fixedSuffix == w.fixedSuffix
  {
    ParseIntToString(m);
    NatToStringPlain(m);
    assert !IsBlank(w.dynamicSuffix);
    IncrementSuffix(defaultFixedSuffix, w, m);
    ParseIntToString(m + 1);
  }

  /** Increment then Decrement restores the counter as written, when the counter is in plain form. */
  lemma DecrementUndoesIncrement(defaultFixedSuffix: string, v: VersionInformation, n: nat)
    requires v.dynamicSuffix == NatToString(n) && n < MaxInt32
    ensures Increment(defaultFixedSuffix, v, Suffix).Ok?
    ensures Decrement(Increment(defaultFixedSuffix, v, Suffix).value, Suffix) == Ok(v)
  {
    ParseIntToString(n);
    NatToStringPlain(n);
    IncrementSuffix(defaultFixedSuffix, v, n);
    ParseIntToString(n + 1);
  }

  /** a > b and b < a agree, including the error raised when a dynamic suffix does not parse. */
  lemma GreaterIsConverseOfLess(a: VersionInformation, b: VersionInformation)
    ensures IsGreaterThan(a, b).Ok? <==> IsLessThan(b, a).Ok?
    ensures IsGreaterThan(a, b).Ok? ==> IsGreaterThan(a, b).value == IsLessThan(b, a).value
  {
    CompareToAntisymmetric(a.canonicalPart, b.canonicalPart);
  }

  /** With parseable suffixes, the order is the canonical order, then the counter order. */
  lemma OrderIsLexicographic(a: VersionInformation, b: VersionInformation, x: int, y: int)
    requires Counter(a) == Ok(x) && Counter(b) == Ok(y)
    ensures IsLessThan(a, b) == Ok(Less(a.canonicalPart, b.canonicalPart) || (a.canonicalPart == b.canonicalPart && x < y))
    ensures IsGreaterThan(a, b) == Ok(Greater(a.canonicalPart, b.canonicalPart) || (a.canonicalPart == b.canonicalPart && x > y))
    ensures IsEqualTo(a, b) == Ok(a.canonicalPart == b.canonicalPart && x == y)
  {
  }

  /** Equal canonical parts and counters of the same value are equal, whatever the fixed suffixes. */
  lemma SameCounterIsEqual(a: VersionInformation, b: VersionInformation, n: int)
    requires a.canonicalPart == b.canonicalPart
    requires ParseInt32(a.dynamicSuffix) == Ok(n) && ParseInt32(b.dynamicSuffix) == Ok(n)
    ensures IsEqualTo(a, b) == Ok(true)
  {
    assert ParseBoth(a, b) == Ok((n, n));
  }

  /** Leading zeros do not change the value of a digit string. */
  lemma {:induction false} ZerosPrefixValue(zeros: string, digits: string)
    requires forall i :: 0 <= i < |zeros| ==> zeros[i] == '0'
    requires AllDigits(digits)
    ensures AllDigits(zeros + digits) && DigitsValue(zeros + digits) == DigitsValue(digits)
    decreases |zeros| + |digits|
  {
    var t := zeros + digits;
    if digits == [] {
      assert t == zeros;
      if zeros != [] {
        assert t[..|t| - 1] == zeros[..|zeros| - 1];
        ZerosPrefixValue(zeros[..|zeros| - 1], []);
        assert zeros[..|zeros| - 1] + [] == zeros[..|zeros| - 1];
      }
    } else {
      var init := digits[..|digits| - 1];
      assert t[..|t| - 1] == zeros + init;
      ZerosPrefixValue(zeros, init);
    }
  }

  /**
   * The fixed suffix is ignored and counters compare as numbers, so a counter with leading
   * zeros ("007") equals the same counter without them ("7").
   */
  lemma PaddedCounterIsEqual(c: Version, zeros: string, digits: string, fixedA: string, fixedB: string)
    requires forall i :: 0 <= i < |zeros| ==> zeros[i] == '0'
    requires |digits| >= 1 && AllDigits(digits) && DigitsValue(digits) <= MaxInt32
    ensures IsEqualTo(VersionInformation(c, zeros + digits, fixedA), VersionInformation(c, digits, fixedB)) == Ok(true)
  {
    ZerosPrefixValue(zeros, digits);
    ParseDigits(zeros + digits);
    ParseDigits(digits);
    SameCounterIsEqual(VersionInformation(c, zeros + digits, fixedA), VersionInformation(c, digits, fixedB), DigitsValue(digits));
  }

  /** A Suffix bump yields a value greater than its input whenever the counter is not at int.MaxValue. */
  lemma IncrementIsGreater(defaultFixedSuffix: string, v: VersionInformation, n: int)
    requires Counter(v) == Ok(n) && n < MaxInt32
    ensures Increment(defaultFixedSuffix, v, Suffix).Ok?
    ensures IsGreaterThan(Increment(defaultFixedSuffix, v, Suffix).value, v) == Ok(true)
  {
    IncrementSuffix(defaultFixedSuffix, v, n);
    ParseIntToString(n + 1);
  }
}
