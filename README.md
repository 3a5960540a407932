# AutoVersionIt, modelled in Dafny

AutoVersionIt is a command-line tool for .NET projects. It runs in four steps:

1. It reads the current version from a version source: a small `Key = Value` text file, or an environment variable.
2. It picks a bump from the command-line flags, the `AUTOVERSIONIT_VERSION_BUMP_METHOD` environment variable or the
   configuration.
3. It bumps the version with a versioning strategy: canonical `major.minor.build.revision`
   versioning, or release-candidate versioning, which counts in the dynamic suffix.
4. It patches project files with the new version: .NET Framework `AssemblyInfo.cs`/`AssemblyInfo.vb` and C++/CLI `.cpp` files,
   SDK-style `.csproj`/`.vbproj`, `.nuspec` packages and plain text files. A patcher that fails
   stops the run. Finally it writes the new version to every version target.

The project models that core:

- the version value, its renderings and its parser (`Versions`, `Reader`);
- the two versioning strategies and the comparison built on them (`CanonicalVersioning`,
  `ReleaseCandidateVersioning`, `Strategies`);
- the line-oriented rewriting of `AssemblyInfo`-style files (`LinePatterns`, `LineRewriting`,
  `Dialects`);
- the XML rewriting of project and package files, on an element tree (`XmlTree`);
- the patcher configurations and the patchers themselves (`PatcherConfig`, `Patchers`), with BOM
  detection (`StreamEncoding`);
- the file and environment version stores (`Disk`, `FileVersionControl`, `EnvVersionControl`);
- the process, which runs the whole pipeline (`Cli`).

Each Dafny module is one file. Pure C# code, such as parsing, rendering, strategies and text
rewriting, becomes functions with lemmas about them. Objects whose fields the C# updates, such as
the reader, the stores, the patchers, the file system and the process, become classes. Their
methods carry `modifies` clauses, and each `ensures` ties the new state to a specification
function. Exceptions become `Err` or `Fail` values of `Wrappers.Result`/`Wrappers.Outcome`, named
after the .NET exception type. int is modelled as unbounded, with explicit Int32 bounds and
wrap-around where the C# relies on them.

## Model

| member | source | states |
|---|---|---|
| Versions.MakeVersion | AutoVersionIt/VersionReader.cs:70-73 | The `Version` constructor succeeds exactly when all four components are non-negative, keeps them as given, and otherwise throws ArgumentOutOfRange |
| Versions.CompareTo | AutoVersionIt/Strategies/SimpleCanonicalVersioning.cs:152-156 | The `Version` order used by `>` and `<`: returns 0 exactly for equal versions, otherwise -1 or 1 |
| Versions.CompareToAntisymmetric | AutoVersionIt/Strategies/SimpleCanonicalVersioning.cs:152-169 | Swapping the operands negates the comparison, so `a > b` is exactly `b < a` |
| Versions.LessTransitive | AutoVersionIt/Strategies/SimpleCanonicalVersioning.cs:165-169 | The `Version` less-than is transitive |
| Versions.VersionTrichotomy | AutoVersionIt/Strategies/SimpleCanonicalVersioning.cs:152-185 | Exactly one of less, equal and greater holds for two versions |
| Versions.Zero | AutoVersionIt/VersionInformation.cs:14-28 | The default value, 0.0.0.0 with empty suffixes, is a release, renders fully as "0.0.0.0" and renders as "0.0.0" |
| Versions.NatToStringPlain | AutoVersionIt/VersionInformation.cs:52 | A rendered component holds no '.', no '-' and no whitespace, and is never blank |
| Versions.ShortCanonicalSegments | AutoVersionIt/VersionInformation.cs:52 | The short form "major.minor.build" splits at '.' into the three decimal components, holds no '-' and starts with a digit |
| Versions.FullCanonicalSegments | AutoVersionIt/VersionInformation.cs:69-73 | The full canonical form splits at '.' into exactly the four decimal components, holds no '-' and starts with a digit |
| Versions.FullCanonicalIgnoresSuffixes | AutoVersionIt/VersionInformation.cs:69-73 | Two values have the same full canonical string exactly when their canonical parts are equal, whatever their suffixes |
| Versions.ToStringReleaseShort | AutoVersionIt/VersionInformation.cs:49-52 | A release with revision 0 renders as its full canonical string without the trailing ".0" |
| Versions.ToStringReleaseFull | AutoVersionIt/VersionInformation.cs:49-54 | A release with a non-zero revision renders as its full canonical string |
| Versions.ToStringPrerelease | AutoVersionIt/VersionInformation.cs:57 | A prerelease renders as the full canonical string, '-', the fixed suffix and then the dynamic suffix |
| Versions.AsPrereleaseOfRelease | AutoVersionIt/VersionInformation.cs:83-85 | With both suffixes blank, the prerelease rendering is the full canonical string |
| Versions.ToString | AutoVersionIt/VersionInformation.cs:47-58 | VersionInformation.ToString: a release is `major.minor.build`, with `.revision` only when the revision is not 0; a prerelease is the full canonical form, `-`, the fixed suffix and the dynamic suffix (stated by `ToStringReleaseShort`, `ToStringReleaseFull`, `ToStringPrerelease`; read back by `Reader.ParseToString`) |
| Versions.AsFullCanonicalString | AutoVersionIt/VersionInformation.cs:69-73 | The four components joined by `.`, whatever the suffixes (`FullCanonicalSegments`, `FullCanonicalIgnoresSuffixes`) |
| Text.TrimIsTrimmed | AutoVersionIt/VersionReader.cs:64-67 | `Trim()` leaves no whitespace at either end, and gives the empty string exactly for a blank input |
| Text.TrimOfTrimmed | AutoVersionIt/VersionReader.cs:64-67 | Trimming an already trimmed string changes nothing |
| Text.TrimSubset | AutoVersionIt/VersionReader.cs:54 | Trimming introduces no character that was not in the input |
| Text.Split | AutoVersionIt/VersionReader.cs:47-48 | `String.Split` yields at least one piece and no piece contains the separator |
| Text.JoinSplit | AutoVersionIt/VersionReader.cs:47-48 | Joining the pieces of a split with the separator gives the original string back |
| Text.SplitAt | AutoVersionIt/VersionReader.cs:47 | Splitting `a + sep + b`, with no separator in `a`, gives `a` and then the pieces of `b` |
| Text.SplitSnoc | AutoVersionIt/VersionReader.cs:48 | Splitting `a + sep + b`, with no separator in `b`, gives the pieces of `a` and then `b` |
| Text.IndexOf | AutoVersionIt/VersionReader.cs:47 | `String.Split` cuts at the first separator: the index found holds it and no earlier index does |
| Text.IndexOfUnique | AutoVersionIt/VersionReader.cs:47 | An index holding the separator with none before it is the one the split cuts at |
| Text.ParseInt32 | AutoVersionIt/VersionReader.cs:70-73 | A successful `int.Parse` always yields a value within Int32; it reads the text between the leading white and the trailing white and NULs (`TrailingNulIgnored`, `ParseBlank`, `ParseIntToString`) |
| Text.StripNul | AutoVersionIt/VersionReader.cs:70-73 | The text before the NUL characters that `int.Parse` accepts at the end: a prefix of the input that does not end in NUL, and every character cut is NUL |
| Text.NulTrimmed | AutoVersionIt/VersionReader.cs:70-73 | A NUL appended to the input leaves the text `int.Parse` reads unchanged |
| Text.TrailingNulIgnored | AutoVersionIt/VersionReader.cs:70-73 | A NUL after the number does not change what `int.Parse` returns |
| Text.ParseNulTerminated | AutoVersionIt/VersionReader.cs:70-73 | `int.Parse("3\0")` is 3, so a version line ending in a NUL still reads its last segment |
| Text.ParseDigits | AutoVersionIt/VersionReader.cs:70-73 | A non-empty string of digits parses to its decimal value, or throws Overflow above int.MaxValue |
| Text.ParseBlank | AutoVersionIt/Strategies/ReleaseCandidateVersioning.cs:85 | A blank string makes `int.Parse` throw FormatException |
| Text.ParseIntToString | AutoVersionIt/Strategies/ReleaseCandidateVersioning.cs:70 | Parsing an Int32 rendered with `ToString("D")` gives the same number back |
| Text.NatToString | AutoVersionIt/VersionInformation.cs:52 | A non-negative component renders as a non-empty string of decimal digits |
| Text.NatToStringValue | AutoVersionIt/VersionInformation.cs:52 | The decimal rendering denotes the rendered number |
| Text.NatToStringNoLeadingZero | AutoVersionIt/VersionInformation.cs:52 | The rendering starts with '0' only for zero itself |
| Text.ToAscii | AutoVersionIt/Sources/FileBasedSimpleVersionControl.cs:105-110 | The ASCII encoding keeps the length and replaces each character above 127 with '?' |
| Text.ToAsciiOfAscii | AutoVersionIt/Sources/FileBasedSimpleVersionControl.cs:105-110 | ASCII text passes through the encoding unchanged |
| Text.ToAsciiAppend | AutoVersionIt/Sources/FileBasedSimpleVersionControl.cs:105-110 | The encoding works character by character, so it distributes over concatenation |
| Reader.TrailingDigitsStart | AutoVersionIt/VersionReader.cs:55-57 | The backward scan stops at the start of the trailing run of digits: everything after it is a digit and the character before it is not |
| Reader.CheckStoreArguments | AutoVersionIt/Sources/FileBasedSimpleVersionControl.cs:39-47 | The constructor checks of both stores, in order: a null config is ArgumentNull, a blank name is Argument, a null reader is ArgumentNull, and all checks pass exactly otherwise |
| Reader.VersionReader.constructor | AutoVersionIt/VersionReader.cs:20 | A new reader throws on empty input |
| Reader.VersionReader.ThrowIfEmpty | AutoVersionIt/VersionReader.cs:84-88 | Turns throwing on, returns the same reader |
| Reader.VersionReader.IgnoreEmpty | AutoVersionIt/VersionReader.cs:95-99 | Turns throwing off, returns the same reader |
| Reader.VersionReader.ScanSuffix | AutoVersionIt/VersionReader.cs:54-61 | The backward loop over the suffix cuts it into the fixed part and the trailing digit run, as `SplitSuffix` specifies |
| Reader.VersionReader.FromString | AutoVersionIt/VersionReader.cs:38-77 | Returns or throws exactly what `ParseVersion` gives for the reader's ShouldThrowIfEmpty setting |
| Reader.SplitSuffixUnique | AutoVersionIt/VersionReader.cs:54-61 | The digit split is the only split into a fixed part not ending in a digit and an all-digit dynamic part |
| Reader.ParseBlankInput | AutoVersionIt/VersionReader.cs:40-45 | Blank input throws ArgumentNull while throwing is on, and gives the zero value otherwise |
| Reader.SplitSubset | AutoVersionIt/VersionReader.cs:47-48 | No split piece holds a character the input lacks |
| Reader.SegmentNonNegative | AutoVersionIt/VersionReader.cs:64-73 | `int.Parse` of a segment without '-' either gives a number between 0 and int.MaxValue or throws Format or Overflow |
| Reader.ParseSegmentsErrors | AutoVersionIt/VersionReader.cs:64-73 | Segments without '-' fail only in `int.Parse` (Format or Overflow), never in the `Version` constructor |
| Reader.ParseCanonicalErrors | AutoVersionIt/VersionReader.cs:48-73 | A numeric part without '-' fails only with Format or Overflow |
| Reader.ParseNeverOutOfRange | AutoVersionIt/VersionReader.cs:38-77 | `FromString` throws only ArgumentNull, Format or Overflow, and ArgumentNull exactly for blank input while throwing is on |
| Reader.ParseComponent | AutoVersionIt/VersionReader.cs:70-73 | A rendered component parses back to itself |
| Reader.ParseSegmentsOfComponents | AutoVersionIt/VersionReader.cs:68-73 | The four rendered components parse back to the same version |
| Reader.ParseCanonicalFull | AutoVersionIt/VersionReader.cs:48-73 | The full canonical string parses back to its version |
| Reader.ParseCanonicalShort | AutoVersionIt/VersionReader.cs:64-67 | The short form of a version with revision 0 parses back to that version, the missing revision reading as 0 |
| Reader.ParseWithoutDash | AutoVersionIt/VersionReader.cs:47-52 | A string without '-' is all numeric part, and both suffixes are empty |
| Reader.ParsePieces | AutoVersionIt/VersionReader.cs:47-76 | The result depends only on the first two '-'-separated pieces: the canonical part comes from the first, and the trimmed second is cut into fixed and dynamic suffix |
| Reader.ParseWithSuffix | AutoVersionIt/VersionReader.cs:52-62 | For `numeric-suffix` with no further '-', the trimmed suffix is cut at its trailing digit run |
| Reader.NonBlankPrefix | AutoVersionIt/VersionReader.cs:40 | A string with a non-blank prefix is not blank |
| Reader.BlankDigitsEmpty | AutoVersionIt/VersionReader.cs:60-61 | A dynamic part that is blank and all digits is empty |
| Reader.ParseToStringRelease | AutoVersionIt/VersionReader.cs:38-77 | Parsing the rendering of a release gives the release back |
| Reader.SuffixRoundTrip | AutoVersionIt/VersionReader.cs:54-61 | The suffix of a round-tripping prerelease survives trimming and the digit split unchanged |
| Reader.ParseToStringPrerelease | AutoVersionIt/VersionReader.cs:38-77 | Parsing the rendering of a round-tripping prerelease gives it back |
| Reader.ParseToString | AutoVersionIt/VersionReader.cs:38-77 | `FromString(v.ToString()) == v` for every value whose suffixes the format can carry (trimmed fixed suffix without '-' and not ending in a digit, all-digit dynamic suffix), whatever ShouldThrowIfEmpty is |
| Reader.DecimalAlphabet | AutoVersionIt/VersionInformation.cs:52 | A decimal rendering is made of digits only |
| Reader.CanonicalAlphabet | AutoVersionIt/VersionInformation.cs:69-73 | Both canonical renderings are made of digits and '.' |
| Reader.RenderedAlphabet | AutoVersionIt/VersionInformation.cs:47-58 | A rendering is made of digits, '.', '-' and the characters of the fixed suffix |
| Reader.CanonicalEnds | AutoVersionIt/VersionInformation.cs:52-73 | Both canonical renderings start and end with a digit |
| Reader.RenderedTrimmed | AutoVersionIt/VersionInformation.cs:47-58 | The rendering of a round-tripping value is trimmed and never blank, so `FromString` never takes its blank path on it |
| Reader.ParseIgnoresLaterPieces | AutoVersionIt/VersionReader.cs:47-54 | Everything after the second '-' is ignored |
| Reader.ParseIgnoresExtraSegments | AutoVersionIt/VersionReader.cs:64-67 | Segments after the fourth are ignored |
| Reader.ParseMajorMinorOnly | AutoVersionIt/VersionReader.cs:65-67 | With only major and minor given, build and revision read as 0 |
| Reader.ParseVersionMajorMinorOnly | AutoVersionIt/VersionReader.cs:47-67 | FromString of "major.minor" (such as "1.2") is major.minor.0.0 with empty suffixes, whether or not empty input throws |
| Reader.ParseDashFree | AutoVersionIt/VersionReader.cs:40-62 | A non-blank string without '-' reads as its canonical part with empty fixed and dynamic suffixes |
| Reader.ExampleSuffixes | AutoVersionIt/VersionReader.cs:54-61 | "alpha123" splits as alpha/123, "rc" as rc/empty, "alpha001" as alpha/001, "123" as empty/123 |
| Reader.ParseVersion | AutoVersionIt/VersionReader.cs:38-77 | FromString under ShouldThrowIfEmpty: a blank string is ArgumentNull when the setting is on and 0.0.0.0 when it is off; any other string is split at `-` into the canonical part and the suffixes (`ParseBlankInput`, `ParseCanonicalErrors`, `ParseWithSuffix`; `ParseToString` reads every rendering back) |
| CanonicalVersioning.WrappingIncrement | AutoVersionIt/Strategies/SimpleCanonicalVersioning.cs:46 | Unchecked Int32 `++`: stays within Int32 and wraps int.MaxValue to int.MinValue |
| CanonicalVersioning.NoneIsIdentity | AutoVersionIt/Strategies/SimpleCanonicalVersioning.cs:37 | A None bump returns the value unchanged, in both directions |
| CanonicalVersioning.SuffixNotSupported | AutoVersionIt/Strategies/SimpleCanonicalVersioning.cs:63-64 | A Suffix bump throws NotSupported, in both directions |
| CanonicalVersioning.IncrementResets | AutoVersionIt/Strategies/SimpleCanonicalVersioning.cs:35-75 | A component bump below int.MaxValue adds one to that component, keeps the higher ones, zeroes the lower ones and empties both suffixes |
| CanonicalVersioning.IncrementOverflow | AutoVersionIt/Strategies/SimpleCanonicalVersioning.cs:46-71 | At int.MaxValue the `++` wraps to a negative number, and the `Version` constructor throws ArgumentOutOfRange |
| CanonicalVersioning.DecrementResets | AutoVersionIt/Strategies/SimpleCanonicalVersioning.cs:93-137 | Decrementing a positive component subtracts one from it, keeps the higher ones, zeroes the lower ones and empties both suffixes |
| CanonicalVersioning.DecrementAtZero | AutoVersionIt/Strategies/SimpleCanonicalVersioning.cs:104-122 | Decrementing a component that is 0 throws ArgumentOutOfRange |
| CanonicalVersioning.DecrementUndoesRevisionIncrement | AutoVersionIt/Strategies/SimpleCanonicalVersioning.cs:60-123 | A revision increment followed by a revision decrement only drops the suffixes |
| CanonicalVersioning.IncrementUndoesRevisionDecrement | AutoVersionIt/Strategies/SimpleCanonicalVersioning.cs:60-123 | A revision decrement followed by a revision increment only drops the suffixes |
| CanonicalVersioning.GreaterIsConverseOfLess | AutoVersionIt/Strategies/SimpleCanonicalVersioning.cs:152-169 | `a > b` is exactly `b < a` |
| CanonicalVersioning.Trichotomy | AutoVersionIt/Strategies/SimpleCanonicalVersioning.cs:152-205 | When the suffixes agree case-insensitively, exactly one of less, equal and greater holds; otherwise none does |
| CanonicalVersioning.EqualsIgnoreCaseTransitive | AutoVersionIt/Strategies/SimpleCanonicalVersioning.cs:198-205 | Ordinal case-insensitive equality is transitive |
| CanonicalVersioning.LessThanTransitive | AutoVersionIt/Strategies/SimpleCanonicalVersioning.cs:165-169 | The strategy's less-than is transitive |
| CanonicalVersioning.IncrementIsGreater | AutoVersionIt/Strategies/SimpleCanonicalVersioning.cs:35-75 | A successful bump is greater than its input exactly when the input had no suffixes, because the bump clears them and the order demands equal suffixes |
| CanonicalVersioning.EqualIgnoringCase | AutoVersionIt/Strategies/SimpleCanonicalVersioning.cs:198-205 | Suffixes "beta" and "BETA" compare equal |
| CanonicalVersioning.Increment | AutoVersionIt/Strategies/SimpleCanonicalVersioning.cs:35-75 | None keeps the version; a component bump adds one to that component, zeroes the later ones and drops both suffixes, and a component at int.MaxValue is ArgumentOutOfRange; Suffix is NotSupported (`IncrementResets`, `IncrementOverflow`, `SuffixNotSupported`, `IncrementIsGreater`) |
| CanonicalVersioning.Decrement | AutoVersionIt/Strategies/SimpleCanonicalVersioning.cs:93-137 | None keeps the version; a component bump subtracts one from a positive component, zeroes the later ones and drops both suffixes; a component at 0 is ArgumentOutOfRange and Suffix is NotSupported (`DecrementResets`, `DecrementAtZero`, `DecrementUndoesRevisionIncrement`) |
| CanonicalVersioning.IsLessThan | AutoVersionIt/Strategies/SimpleCanonicalVersioning.cs:165-169 | A smaller canonical part and both suffixes equal up to case (`Trichotomy`, `LessThanTransitive`, `GreaterIsConverseOfLess`) |
| ReleaseCandidateVersioning.WrappingIncrement | AutoVersionIt/Strategies/ReleaseCandidateVersioning.cs:57 | Unchecked Int32 `++` on the counter stays within Int32 and adds one below int.MaxValue |
| ReleaseCandidateVersioning.NoneIsIdentity | AutoVersionIt/Strategies/ReleaseCandidateVersioning.cs:45 | A None bump returns the value unchanged, in both directions |
| ReleaseCandidateVersioning.IncrementSuffix | AutoVersionIt/Strategies/ReleaseCandidateVersioning.cs:43-72 | A Suffix bump keeps the canonical part, keeps the fixed suffix (the default one when both suffixes are blank), and writes the next counter in decimal; a blank counter reads as 0 |
| ReleaseCandidateVersioning.IncrementTakesDefaultSuffix | AutoVersionIt/Strategies/ReleaseCandidateVersioning.cs:50-52 | 1.2.3.4 with default fixed suffix "beta" becomes "1.2.3.4-beta1" |
| ReleaseCandidateVersioning.Renderings | AutoVersionIt/Strategies/ReleaseCandidateVersioning.cs:70 | 999 renders as "999" and 1000 as "1000" |
| ReleaseCandidateVersioning.IncrementCarries | AutoVersionIt/Strategies/ReleaseCandidateVersioning.cs:57-70 | The counter "999" becomes "1000" |
| ReleaseCandidateVersioning.IncrementNotSupported | AutoVersionIt/Strategies/ReleaseCandidateVersioning.cs:54-60 | Any bump other than None and Suffix throws NotSupported once the counter has been read |
| ReleaseCandidateVersioning.DecrementBlankIsFormatError | AutoVersionIt/Strategies/ReleaseCandidateVersioning.cs:85 | Decrement parses the counter first, so a blank counter throws Format for every bump except None |
| ReleaseCandidateVersioning.DecrementSuffix | AutoVersionIt/Strategies/ReleaseCandidateVersioning.cs:82-106 | A Suffix decrement lowers a positive counter by one and keeps the rest; at 0 or below it throws ArgumentOutOfRange |
| ReleaseCandidateVersioning.IncrementUndoesDecrement | AutoVersionIt/Strategies/ReleaseCandidateVersioning.cs:43-106 | Decrement then Increment restores the counter's value, the canonical part and the fixed suffix |
| ReleaseCandidateVersioning.DecrementUndoesIncrement | AutoVersionIt/Strategies/ReleaseCandidateVersioning.cs:43-106 | Increment then Decrement restores a plain decimal counter exactly |
| ReleaseCandidateVersioning.GreaterIsConverseOfLess | AutoVersionIt/Strategies/ReleaseCandidateVersioning.cs:114-152 | `a > b` and `b < a` agree, including when the counter fails to parse |
| ReleaseCandidateVersioning.OrderIsLexicographic | AutoVersionIt/Strategies/ReleaseCandidateVersioning.cs:114-172 | With parseable counters the order is the canonical order first, then the counter order; the fixed suffix is ignored |
| ReleaseCandidateVersioning.SameCounterIsEqual | AutoVersionIt/Strategies/ReleaseCandidateVersioning.cs:162-172 | Equal canonical parts and counters that parse to the same number are equal, whatever the fixed suffixes |
| ReleaseCandidateVersioning.ZerosPrefixValue | AutoVersionIt/Strategies/ReleaseCandidateVersioning.cs:168-169 | Leading zeros do not change the number a counter parses to |
| ReleaseCandidateVersioning.PaddedCounterIsEqual | AutoVersionIt/Strategies/ReleaseCandidateVersioning.cs:162-172 | Counters compare as numbers, so a zero-padded counter ("007", fixed "alpha") equals the unpadded one ("7", fixed "beta") |
| ReleaseCandidateVersioning.IncrementIsGreater | AutoVersionIt/Strategies/ReleaseCandidateVersioning.cs:43-129 | A Suffix bump below int.MaxValue gives a value greater than its input |
| ReleaseCandidateVersioning.Increment | AutoVersionIt/Strategies/ReleaseCandidateVersioning.cs:43-72 | None keeps the version; otherwise the dynamic suffix is parsed as an Int32 (a blank one as 0), and only Suffix is then accepted: the counter goes up by one with wrap-around, and the default fixed suffix replaces a blank one when both suffixes are blank (`IncrementSuffix`, `IncrementTakesDefaultSuffix`, `IncrementNotSupported`, `IncrementIsGreater`) |
| ReleaseCandidateVersioning.IsLessThan | AutoVersionIt/Strategies/ReleaseCandidateVersioning.cs:137-152 | The canonical order first; for equal canonical parts, the numeric order of the dynamic suffixes, whose parse errors propagate (`OrderIsLexicographic`, `GreaterIsConverseOfLess`) |
| Strategies.CompareNulls | AutoVersionIt/Strategies/VersioningStrategyBase.cs:79-80 | Null sorts first: null against null is 0, null first is -1, null second is 1 |
| Strategies.LessAndGreaterExclusive | AutoVersionIt/Strategies/VersioningStrategyBase.cs:82-83 | Less-than and greater-than are defined or throw together, and never both hold |
| Strategies.CompareAntisymmetric | AutoVersionIt/Strategies/VersioningStrategyBase.cs:77-85 | Swapping the arguments negates the comparison, and one throws exactly when the other does |
| Strategies.CompareAgreesWithTests | AutoVersionIt/Strategies/VersioningStrategyBase.cs:82-84 | The comparison is -1 exactly when less-than holds and 1 exactly when greater-than holds |
| Strategies.CanonicalDifferentSuffixesCompareEqual | AutoVersionIt/Strategies/VersioningStrategyBase.cs:82-84 | Under canonical versioning, values whose suffixes differ compare as 0 |
| Strategies.ReleaseCandidateCompareZeroIsEquality | AutoVersionIt/Strategies/VersioningStrategyBase.cs:82-84 | Under release-candidate versioning, a comparison of 0 is exactly IsEqualTo |
| Strategies.CanonicalCompareZeroIsEquality | AutoVersionIt/Strategies/VersioningStrategyBase.cs:82-84 | Under canonical versioning with agreeing suffixes, a comparison of 0 is exactly IsEqualTo |
| Strategies.Increment | AutoVersionIt/Strategies/VersioningStrategyBase.cs:22 | The increment of the strategy in use; release-candidate versioning carries its configured default fixed suffix |
| Strategies.Compare | AutoVersionIt/Strategies/VersioningStrategyBase.cs:77-85 | IComparer.Compare: nulls first, then -1 when less, 1 when greater, else 0, with the strategy's errors propagated (`CompareNulls`, `CompareAntisymmetric`, `LessAndGreaterExclusive`) |
| StreamEncoding.IsAsciiStream | AutoVersionIt/Patches/StreamEncodingHelper.cs:90-104 | The byte loop answers true exactly when every byte is TAB, CR, LF or in 0x20..0x7E, and false only when some byte is not |
| StreamEncoding.IsUtf8Stream | AutoVersionIt/Patches/StreamEncodingHelper.cs:20-36 | True exactly when the stream opens with EF BB BF or holds a byte that is not text |
| StreamEncoding.GuessEncodingFor | AutoVersionIt/Patches/StreamEncodingHelper.cs:7-18 | The encoding chosen is `Guess`: Default for an empty stream, then the UTF-32, UTF-16 and UTF-8 marks in that order, then ASCII for all-text bytes, else UTF-8 |
| StreamEncoding.IsUnicodeStream | AutoVersionIt/Patches/StreamEncodingHelper.cs:106-109 | True exactly when the stream carries a UTF-32 or UTF-16 mark or is not all text |
| StreamEncoding.MarksAreNotText | AutoVersionIt/Patches/StreamEncodingHelper.cs:48-100 | A stream opening with any byte-order mark is not all text, so the ASCII test rejects it |
| StreamEncoding.Utf8IsNotAscii | AutoVersionIt/Patches/StreamEncodingHelper.cs:20-104 | Without a UTF-8 mark, `IsUtf8Stream` and `IsAsciiStream` always answer opposite ways |
| StreamEncoding.EmptyIsDefault | AutoVersionIt/Patches/StreamEncodingHelper.cs:9 | An empty stream gets `Encoding.Default` |
| StreamEncoding.Utf32BeforeUtf16 | AutoVersionIt/Patches/StreamEncodingHelper.cs:11-12 | FF FE 00 00 also carries the UTF-16 mark, but is taken as UTF-32 because that test comes first |
| StreamEncoding.MarkedEncodings | AutoVersionIt/Patches/StreamEncodingHelper.cs:11-13 | Each byte-order mark selects its encoding, the two byte orders giving the same encoding |
| StreamEncoding.GuessIsAsciiIff | AutoVersionIt/Patches/StreamEncodingHelper.cs:15-17 | ASCII is chosen exactly for a non-empty all-text stream; an unmarked stream that is not all text gets UTF-8 |
| StreamEncoding.NonEmptyIsNotDefault | AutoVersionIt/Patches/StreamEncodingHelper.cs:9-17 | A non-empty stream never gets `Encoding.Default` |
| StreamEncoding.Guess | AutoVersionIt/Patches/StreamEncodingHelper.cs:7-18 | Default for an empty stream, then the UTF-32, UTF-16 and UTF-8 marks in that order, then ASCII for all-text bytes, else UTF-8 (`GuessIsAsciiIff`, `MarkedEncodings`, `EmptyIsDefault`) |
| LinePatterns.FirstMatchFrom | AutoVersionIt/Patches/VersionPatcherBase.cs:102 | The position found is the leftmost one from which `pattern\s*$` matches the rest of the line; none is found only when no position matches |
| LinePatterns.LitCons | AutoVersionIt/Patches/VersionPatcherBase.cs:99 | A literal token accepts its own text in front of a match of the rest of the pattern |
| LinePatterns.SpacesCons | AutoVersionIt/Patches/VersionPatcherBase.cs:99 | `\s*` accepts any blank run, `\s+` any non-empty one, in front of a match of the rest |
| LinePatterns.AnyCons | AutoVersionIt/Patches/VersionPatcherBase.cs:99 | `.*` accepts any text without a line feed in front of a match of the rest |
| LinePatterns.FullMatchOfMatch | AutoVersionIt/Patches/VersionPatcherBase.cs:99-100 | A text matching the pattern also matches `^\s*pattern\s*$` |
| LinePatterns.MatchesAppend | AutoVersionIt/Patches/VersionPatcherBase.cs:99 | Matches of two patterns concatenate into a match of the concatenated pattern |
| LinePatterns.MatchesSplit | AutoVersionIt/Patches/VersionPatcherBase.cs:99 | A match of a concatenated pattern splits into matches of its two parts |
| LinePatterns.LitConsIgnoringCase | AutoVersionIt/Patches/VersionPatcherBase.cs:99-100 | Under IgnoreCase a literal accepts any text equal to it up to case |
| LinePatterns.SpacesAlone | AutoVersionIt/Patches/VersionPatcherBase.cs:99 | A lone `\s*` accepts only blank text |
| LinePatterns.FullMatchStart | AutoVersionIt/Patches/VersionPatcherBase.cs:99-102 | A full match of a pattern starting with text begins right after the leading whitespace, where the first visible character agrees with the text up to case |
| LinePatterns.ReplaceKeepsIndent | AutoVersionIt/Patches/VersionPatcherBase.cs:99-102 | A matching line is rewritten as its own indentation followed by the replacement |
| LinePatterns.FullMatchIndented | AutoVersionIt/Patches/VersionPatcherBase.cs:99 | Indenting a matching line keeps it matching |
| LinePatterns.FullMatchEnd | AutoVersionIt/Patches/VersionPatcherBase.cs:99 | A matching line whose last character is visible ends with the pattern's final literal, up to case |
| LinePatterns.FullMatchMinLength | AutoVersionIt/Patches/VersionPatcherBase.cs:99 | A matching line is at least as long as the pattern's literals plus one per `\s+` |
| LinePatterns.FullMatchSecondLit | AutoVersionIt/Patches/VersionPatcherBase.cs:99 | On a line of the form `a c`, a pattern `a\s*b…` finds `b` at the start of `c` |
| LinePatterns.FullMatch | AutoVersionIt/Patches/VersionPatcherBase.cs:99-100 | `Regex.IsMatch(line, "^\s*" + pattern + "\s*$")`, ignoring ASCII case (`FullMatchOfMatch`, `FullMatchStart`, `FullMatchEnd`) |
| LinePatterns.RegexReplace | AutoVersionIt/Patches/VersionPatcherBase.cs:102 | `Regex.Replace(line, pattern + "\s*$", replacement)`: the text from the leftmost position whose rest matches is replaced, and a line with no such position is kept (`FirstMatchFrom`, `ReplaceKeepsIndent`) |
| LinePatterns.PatchLine | AutoVersionIt/Patches/VersionPatcherBase.cs:99-104 | Only a line that fully matches is rewritten (`LineRewriting.PatchLineStable`) |
| LineRewriting.MatchCount | AutoVersionIt/Patches/VersionPatcherBase.cs:94-107 | The number of matching lines never exceeds the number of lines |
| LineRewriting.LineList.PatchLinesIfMatches | AutoVersionIt/Patches/VersionPatcherBase.cs:94-107 | The loop rewrites every fully matching line in place, leaves the others, and returns the number of matching lines |
| LineRewriting.LineList.AppendOrUpdate | AutoVersionIt/Patches/VersionPatcherBase.cs:75-79 | Patches the matching lines, and appends the replacement when no line matched |
| LineRewriting.LineList.InsertOrUpdate | AutoVersionIt/Patches/VersionPatcherBase.cs:81-92 | Patches the matching lines, and when none matched rebuilds the list with the replacement first |
| LineRewriting.MatchCountZero | AutoVersionIt/Patches/VersionPatcherBase.cs:77-83 | The count is 0 exactly when no line matches |
| LineRewriting.NoMatchUnchanged | AutoVersionIt/Patches/VersionPatcherBase.cs:94-107 | With no matching line, patching changes nothing |
| LineRewriting.PatchedLinesShape | AutoVersionIt/Patches/VersionPatcherBase.cs:94-107 | Patching keeps the line count, turns each matching line into its indentation plus the replacement, and keeps every other line verbatim |
| LineRewriting.PatchLineStable | AutoVersionIt/Patches/VersionPatcherBase.cs:99-102 | Under a replacement that matches its own pattern, a patched line still matches and patches to itself |
| LineRewriting.PatchedLinesIdempotent | AutoVersionIt/Patches/VersionPatcherBase.cs:94-107 | Patching twice with a self-matching replacement is patching once |
| LineRewriting.PatchedLinesKeepMatching | AutoVersionIt/Patches/VersionPatcherBase.cs:94-107 | Under a self-matching replacement, a list that had a matching line still has one |
| LineRewriting.AppendOrUpdateIdempotent | AutoVersionIt/Patches/VersionPatcherBase.cs:75-79 | Append-or-update with a self-matching replacement is idempotent |
| LineRewriting.InsertOrUpdateIdempotent | AutoVersionIt/Patches/VersionPatcherBase.cs:81-92 | Insert-or-update with a self-matching replacement is idempotent |
| LineRewriting.AppendOrUpdateDuplicates | AutoVersionIt/Patches/VersionPatcherBase.cs:75-79 | A replacement its own pattern rejects is appended again on every run |
| LineRewriting.NoMatchPlacement | AutoVersionIt/Patches/VersionPatcherBase.cs:75-92 | With nothing matching, append puts the replacement last and insert puts it first |
| LineRewriting.PatchAllNoMatch | AutoVersionIt/Patches/NetFxVersionPatcher.cs:95-97 | When no line matches any rule, the patch-only mode leaves the file unchanged |
| LineRewriting.AppendAllFresh | AutoVersionIt/Patches/NetFxVersionPatcher.cs:89-91 | When nothing matches and no replacement matches a later pattern, the rules' lines end up at the bottom in rule order |
| LineRewriting.InsertAllFresh | AutoVersionIt/Patches/NetFxVersionPatcher.cs:82-84 | Under the same conditions, the inserted lines end up at the top in reverse rule order |
| LineRewriting.PatchedLines | AutoVersionIt/Patches/VersionPatcherBase.cs:94-107 | Every matching line rewritten, every other line kept (`PatchedLinesShape`, `NoMatchUnchanged`, `PatchedLinesIdempotent`; the loop is `LineList.PatchLinesIfMatches`) |
| LineRewriting.AppendedOrUpdated | AutoVersionIt/Patches/VersionPatcherBase.cs:75-79 | With no matching line the replacement is appended, otherwise every match is rewritten (`AppendOrUpdateIdempotent`, `AppendOrUpdateDuplicates`) |
| LineRewriting.InsertedOrUpdated | AutoVersionIt/Patches/VersionPatcherBase.cs:81-92 | With no matching line the replacement is inserted first, otherwise every match is rewritten (`InsertOrUpdateIdempotent`, `NoMatchPlacement`) |
| Dialects.ImportSelfMatching | AutoVersionIt/Patches/NetFxVersionPatcher.cs:82-84 | An import line written by the patcher matches its own pattern |
| Dialects.AttributeSelfMatching | AutoVersionIt/Patches/NetFxVersionPatcher.cs:89-97 | An attribute line written by the patcher matches its own pattern |
| Dialects.AttributeNameDiffers | AutoVersionIt/Patches/NetFxVersionPatcher.cs:89-91 | A line for one attribute does not match the pattern of an attribute whose name differs from it |
| Dialects.FirstVisibleDiffers | AutoVersionIt/Patches/VersionPatcherBase.cs:99-100 | A line whose first visible character differs from the pattern's first character does not match it |
| Dialects.AttributeRulesSelfMatching | AutoVersionIt/Patches/NetFxVersionPatcher.cs:89-97 | Each of the three attribute lines matches its own pattern |
| Dialects.AttributeRulesDistinct | AutoVersionIt/Patches/NetFxVersionPatcher.cs:89-91 | No attribute line matches the pattern of an attribute applied after it |
| Dialects.FirstVisibleDiffersKept | AutoVersionIt/Patches/NetFxVersionPatcher.cs:89-97 | A line such as a comment, whose first visible character differs, is kept verbatim by every rule |
| Dialects.ImportEndMismatch | AutoVersionIt/Patches/NetFxVersionPatcher.cs:82-84 | A line shorter than a namespace, or differing from it near the end, fails that import pattern |
| Dialects.CSharpUsingsDistinct | AutoVersionIt/Patches/NetFxVersionPatcher.cs:82-84 | No C# using line matches the pattern of a later using |
| Dialects.CSharpRulesSelfMatching | AutoVersionIt/Patches/NetFxVersionPatcher.cs:82-97 | Every C# using line and (corrected) attribute line matches its own pattern |
| Dialects.WrittenLinesDiffer | AutoVersionIt/Patches/NetFxVersionPatcher.cs:80-92 | Import lines never match an attribute pattern, since they start with a different character |
| Dialects.ImportsThenAttributes | AutoVersionIt/Patches/NetFxVersionPatcher.cs:80-92 | In insert mode on a file with none of the lines, the imports go to the top in reverse order and the attributes to the bottom in order |
| Dialects.CSharpUsingOrder | AutoVersionIt/Patches/NetFxVersionPatcher.cs:82-84 | Inserted at the top one by one, the usings read InteropServices, CompilerServices, Reflection |
| Dialects.CSharpFreshFile | AutoVersionIt/Patches/NetFxVersionPatcher.cs:80-92 | A C# file with none of the usings or attributes gains the three usings at the top and the three attributes at the bottom, the informational one in its corrected form ending in `")]` |
| Dialects.CSharpAttributeRulesIdempotent | AutoVersionIt/Patches/NetFxVersionPatcher.cs:89-97 | With the informational line corrected, each attribute rule is idempotent in both modes |
| Dialects.AsWrittenInsertDiffersBySemicolon | AutoVersionIt/Patches/NetFxVersionPatcher.cs:89-91 | The insert-mode rules as written and the corrected rules the model patches with differ only in the `;` after the informational line |
| Dialects.AsWrittenInformationalDuplicates | AutoVersionIt/Patches/NetFxVersionPatcher.cs:91 | As written, the inserted informational line ends in "];", which its own pattern rejects, so each run appends another copy |
| Dialects.VbImportsDistinct | AutoVersionIt/Patches/NetFxVersionPatcher.cs:131-133 | No VB import line matches the pattern of a later import |
| Dialects.VbRulesSelfMatching | AutoVersionIt/Patches/NetFxVersionPatcher.cs:131-146 | Every VB import line and attribute line matches its own pattern |
| Dialects.VbRulesStart | AutoVersionIt/Patches/NetFxVersionPatcher.cs:131-146 | VB import patterns start with I and attribute patterns with < |
| Dialects.VbFreshFile | AutoVersionIt/Patches/NetFxVersionPatcher.cs:129-141 | A VB file with none of the imports or attributes gains the imports at the top and the attributes at the bottom |
| Dialects.CppUsingSelfMatching | AutoVersionIt/Patches/NetFxVersionPatcher.cs:177-178 | A C++/CLI `using namespace` line matches its own pattern |
| Dialects.CppUsingsDistinct | AutoVersionIt/Patches/NetFxVersionPatcher.cs:177-178 | The Reflection using line does not match the InteropServices pattern |
| Dialects.CppRulesSelfMatching | AutoVersionIt/Patches/NetFxVersionPatcher.cs:177-191 | Every C++/CLI using line and attribute line matches its own pattern |
| Dialects.CppFreshFile | AutoVersionIt/Patches/NetFxVersionPatcher.cs:175-186 | A C++/CLI file with none of the lines gains the usings at the top and the attributes at the bottom |
| Dialects.AssignmentSelfMatching | AutoVersionIt/Patches/TextFilePatcher.cs:74 | A `key = value` line matches `key\s*=.*` |
| Dialects.AssignmentNeedsEquals | AutoVersionIt/Patches/TextFilePatcher.cs:74 | A line where the key is followed by a visible character other than '=' does not match |
| Dialects.TextLinesIdempotent | AutoVersionIt/Patches/TextFilePatcher.cs:74 | Patching a text file twice is patching once |
| Dialects.TextNeedsEquals | AutoVersionIt/Patches/TextFilePatcher.cs:74 | A line such as `VersionMajor = 2` is not a Version line and is left alone |
| Dialects.CSharpLines | AutoVersionIt/Patches/NetFxVersionPatcher.cs:80-104 | The usings inserted when checked, then the attribute rules appended-or-updated in insert mode and only updated otherwise (`CSharpFreshFile`, `CSharpAttributeRulesIdempotent`) |
| Dialects.TextLines | AutoVersionIt/Patches/TextFilePatcher.cs:74 | The `Version = ` line updated, or appended when there is none (`TextLinesIdempotent`, `TextNeedsEquals`) |
| XmlTree.SetInnerText | AutoVersionIt/Patches/VersionPatcherBase.cs:153 | Setting `InnerText` makes the node's inner text exactly the value and keeps its name, kind and namespace |
| XmlTree.PathSegments | AutoVersionIt/Patches/VersionPatcherBase.cs:111 | `Split('/', RemoveEmptyEntries \| TrimEntries)` yields only non-empty, trimmed, slash-free names |
| XmlTree.ElementPathSegments | AutoVersionIt/Patches/VersionPatcherBase.cs:111 | The segments of "/a/b/c" are a, b and c |
| XmlTree.FirstNamed | AutoVersionIt/Patches/VersionPatcherBase.cs:116-118 | The first child whose name equals the segment ignoring case; none exactly when no child is so named |
| XmlTree.FirstNamedWithChild | AutoVersionIt/Patches/VersionPatcherBase.cs:135-147 | The first matching child that itself has a child named like the next segment; none exactly when no such child exists |
| XmlTree.Choose | AutoVersionIt/Patches/VersionPatcherBase.cs:116-151 | The child the walk descends to is named like the segment; there is none exactly when no child is so named |
| XmlTree.ChooseIgnoresCount | AutoVersionIt/Patches/VersionPatcherBase.cs:128-150 | The `children.Count == 1` shortcut never changes which child is chosen |
| XmlTree.OnlyMatch | AutoVersionIt/Patches/VersionPatcherBase.cs:128 | With a single match, any two matching children are the same child |
| XmlTree.UpdateFindsLookup | AutoVersionIt/Patches/VersionPatcherBase.cs:156-199 | The update walk finds a node to change exactly when every segment can be looked up |
| XmlTree.AppendAgreesWithUpdate | AutoVersionIt/Patches/VersionPatcherBase.cs:109-199 | Where the whole path exists, the create walk and the update walk write the same tree |
| XmlTree.AppendFailsOnlyAtLeaf | AutoVersionIt/Patches/VersionPatcherBase.cs:120-124 | The only error the create walk raises is InvalidOperation, from `AppendChild` on a node that cannot have children or on a document that already has its document element |
| XmlTree.FreshElementAccepts | AutoVersionIt/Patches/VersionPatcherBase.cs:120-125 | Below an element the walk has just created, every further segment is created and nothing is refused |
| XmlTree.SecondDocumentElementRefused | AutoVersionIt/Patches/VersionPatcherBase.cs:120-124 | When the first segment names no child of the document, the walk fails exactly when the document already has a document element, and the failure is InvalidOperation |
| XmlTree.AppendKeepsNode | AutoVersionIt/Patches/VersionPatcherBase.cs:109-154 | The walk keeps the name, kind and namespace of the node it starts from, and that node then has a child named like the segment |
| XmlTree.ChooseAfterAppend | AutoVersionIt/Patches/VersionPatcherBase.cs:120-125 | A child created for a segment that had no match is the one chosen for it next time |
| XmlTree.ChooseAfterUpdate | AutoVersionIt/Patches/VersionPatcherBase.cs:128-150 | Rewriting the chosen child, keeping its name and its lookahead child, keeps it the chosen one |
| XmlTree.AppendThenLookup | AutoVersionIt/Patches/VersionPatcherBase.cs:109-154 | After the create walk, walking the same path reaches a node whose inner text is the value |
| XmlTree.AppendOrUpdateXmlNodeReads | AutoVersionIt/Patches/VersionPatcherBase.cs:109-154 | On a document, the path written is the path read back, holding the value |
| XmlTree.UpdateXmlNodeIfExistsCases | AutoVersionIt/Patches/VersionPatcherBase.cs:156-199 | A missing segment leaves the document unchanged; otherwise the update writes exactly what the create walk writes |
| XmlTree.EmptyPathRefused | AutoVersionIt/Patches/VersionPatcherBase.cs:111-153 | With no segments both walks stay on the document node, whose `InnerText` setter throws InvalidOperation |
| XmlTree.CreatedInParentNamespace | AutoVersionIt/Patches/VersionPatcherBase.cs:122-124 | A missing child is appended after the existing ones, as an empty element named exactly as the segment, in the parent's namespace URI |
| XmlTree.EmptyElementTakesText | AutoVersionIt/Patches/VersionPatcherBase.cs:153 | An element without children, such as `<Version/>`, receives the value as its only text node |
| XmlTree.XmlDocument.AppendOrUpdateNode | AutoVersionIt/Patches/VersionPatcherBase.cs:109-154 | The loop over the segments with a cursor into the tree produces exactly `AppendOrUpdateXmlNode`, and leaves the document as it was on error |
| XmlTree.XmlDocument.UpdateNodeIfExists | AutoVersionIt/Patches/VersionPatcherBase.cs:156-199 | The loop with early return produces exactly `UpdateXmlNodeIfExists`, and leaves the document as it was on error |
| XmlTree.DescendStep | AutoVersionIt/Patches/VersionPatcherBase.cs:128-150 | Moving the cursor to the chosen child does not change what the create walk produces |
| XmlTree.CreateStep | AutoVersionIt/Patches/VersionPatcherBase.cs:120-125 | Appending the missing child and moving onto it does not change what the create walk produces |
| XmlTree.UpdateDescendStep | AutoVersionIt/Patches/VersionPatcherBase.cs:170-192 | Moving the cursor to the chosen child does not change what the update walk produces |
| XmlTree.AppendOrUpdateXmlNode | AutoVersionIt/Patches/VersionPatcherBase.cs:109-154 | The create walk from the document node, setting the inner text at the end of the path (`AppendOrUpdateXmlNodeReads`, `AppendFailsOnlyAtLeaf`, `SecondDocumentElementRefused`, `EmptyPathRefused`; the loop is `XmlDocument.AppendOrUpdateNode`) |
| XmlTree.UpdateXmlNodeIfExists | AutoVersionIt/Patches/VersionPatcherBase.cs:156-199 | The walk that creates nothing: a missing segment leaves the document as it was (`UpdateXmlNodeIfExistsCases`; the loop is `XmlDocument.UpdateNodeIfExists`) |
| XmlTree.Lookup | AutoVersionIt/Patches/VersionPatcherBase.cs:156-199 | The node both walks reach when every segment has a matching child, chosen as they choose (`UpdateFindsLookup`, `AppendThenLookup`) |
| PatcherConfig.KindByExtension | AutoVersionIt/Patches/Configuration/VersionPatcherConfig.cs:67-78 | A kind is returned only for an extension equal, ignoring case, to that kind's own; any other extension throws NotSupported |
| PatcherConfig.KindOfExtensionOf | AutoVersionIt/Patches/Configuration/VersionPatcherConfig.cs:67-78 | Each kind's own extension, in any letter case, maps back to that kind |
| PatcherConfig.ExtensionExamples | AutoVersionIt/Patches/Configuration/VersionPatcherConfig.cs:69-77 | ".CS" is C#, ".VbProj" is a VB project, and ".json" throws NotSupported |
| PatcherConfig.VersionPatcherConfig.constructor | AutoVersionIt/Patches/Configuration/VersionPatcherConfig.cs:5-15 | A new configuration is recursive, uses the globber, has no filters and no detection function |
| PatcherConfig.VersionPatcherConfig.AddCustomFilter | AutoVersionIt/Patches/Configuration/VersionPatcherConfig.cs:17-22 | A blank filter throws Argument and adds nothing; any other filter is appended to the custom list; nothing else changes |
| PatcherConfig.VersionPatcherConfig.AddCustomFilters | AutoVersionIt/Patches/Configuration/NetFxVersionPatcherConfig.cs:53-59 | The foreach succeeds exactly when no filter is blank; otherwise it throws Argument after adding the filters before the first blank one |
| PatcherConfig.VersionPatcherConfig.Recursive | AutoVersionIt/Patches/Configuration/VersionPatcherConfig.cs:24-29 | Turns recursion on and changes nothing else |
| PatcherConfig.VersionPatcherConfig.NonRecursive | AutoVersionIt/Patches/Configuration/VersionPatcherConfig.cs:31-36 | Turns recursion off and changes nothing else |
| PatcherConfig.VersionPatcherConfig.EnableGlobber | AutoVersionIt/Patches/Configuration/VersionPatcherConfig.cs:38-42 | Turns the globber on, so `Filters` is the globber list then the custom list, and keeps both lists |
| PatcherConfig.VersionPatcherConfig.DisableGlobber | AutoVersionIt/Patches/Configuration/VersionPatcherConfig.cs:44-48 | Turns the globber off, so `Filters` is the wildcard list then the custom list, and keeps both lists |
| PatcherConfig.VersionPatcherConfig.DetectFileKindByExtension | AutoVersionIt/Patches/Configuration/VersionPatcherConfig.cs:50-54 | Afterwards every file's kind is the one its extension maps to |
| PatcherConfig.VersionPatcherConfig.DetectFileKindWithFunc | AutoVersionIt/Patches/Configuration/VersionPatcherConfig.cs:56-60 | The given function becomes the detection function |
| PatcherConfig.VersionPatcherConfig.ClearLists | AutoVersionIt/Patches/Configuration/NetFxVersionPatcherConfig.cs:68-74 | All three lists become empty, so `Filters` is empty; the flags stay |
| PatcherConfig.VersionPatcherConfig.AddBuiltInFilters | AutoVersionIt/Patches/Configuration/NetFxVersionPatcherConfig.cs:36-51 | The dialect's globber and wildcard patterns are appended to their lists; nothing else changes |
| PatcherConfig.FirstBlankUnique | AutoVersionIt/Patches/Configuration/NetFxVersionPatcherConfig.cs:53-59 | Only one index can be the first blank filter, so the filters kept before a throw are determined |
| PatcherConfig.NetFxVersionPatcherConfig.constructor | AutoVersionIt/Patches/Configuration/NetFxVersionPatcherConfig.cs:5-6 | Both flags start on, over a fresh base configuration |
| PatcherConfig.NetFxVersionPatcherConfig.InsertAttributesIfMissing | AutoVersionIt/Patches/Configuration/NetFxVersionPatcherConfig.cs:8-13 | Turns attribute insertion on, keeps the using check |
| PatcherConfig.NetFxVersionPatcherConfig.IgnoreMissingAttributes | AutoVersionIt/Patches/Configuration/NetFxVersionPatcherConfig.cs:15-20 | Turns attribute insertion off, keeps the using check |
| PatcherConfig.NetFxVersionPatcherConfig.CheckUsingStatements | AutoVersionIt/Patches/Configuration/NetFxVersionPatcherConfig.cs:22-27 | Turns the using check on, keeps attribute insertion |
| PatcherConfig.NetFxVersionPatcherConfig.IgnoreUsingStatements | AutoVersionIt/Patches/Configuration/NetFxVersionPatcherConfig.cs:29-34 | Turns the using check off, keeps attribute insertion |
| PatcherConfig.NetFxVersionPatcherConfig.PatchCSharpProjects | AutoVersionIt/Patches/Configuration/NetFxVersionPatcherConfig.cs:36-42 | Adds `**/Properties/AssemblyInfo.cs` to the globber list and `AssemblyInfo.cs` to the wildcard list; the custom list, the flags and the detection function stay |
| PatcherConfig.NetFxVersionPatcherConfig.PatchVbProjects | AutoVersionIt/Patches/Configuration/NetFxVersionPatcherConfig.cs:44-51 | Adds the two VB AssemblyInfo globs and `AssemblyInfo.vb`; the custom list, the flags and the detection function stay |
| PatcherConfig.NetFxVersionPatcherConfig.WithFilters | AutoVersionIt/Patches/Configuration/NetFxVersionPatcherConfig.cs:53-59 | Adds every filter, or throws Argument at the first blank one after adding those before it; the globber and wildcard lists, the flags and the detection function stay |
| PatcherConfig.NetFxVersionPatcherConfig.WithCustomFilter | AutoVersionIt/Patches/Configuration/NetFxVersionPatcherConfig.cs:61-66 | Adds one non-blank filter, or throws Argument; the globber and wildcard lists, the flags and the detection function stay |
| PatcherConfig.NetFxVersionPatcherConfig.ClearFilters | AutoVersionIt/Patches/Configuration/NetFxVersionPatcherConfig.cs:68-74 | Empties all three lists; the flags and the detection function stay |
| PatcherConfig.NetCoreVersionPatcherConfig.InsertAttributesIfMissing | AutoVersionIt/Patches/Configuration/NetCoreVersionPatcherConfig.cs:7-12 | Turns element insertion on |
| PatcherConfig.NetCoreVersionPatcherConfig.IgnoreMissingAttributes | AutoVersionIt/Patches/Configuration/NetCoreVersionPatcherConfig.cs:14-19 | Turns element insertion off |
| PatcherConfig.NetCoreVersionPatcherConfig.PatchCSharpProjects | AutoVersionIt/Patches/Configuration/NetCoreVersionPatcherConfig.cs:21-27 | Adds `**/*.csproj` and `*.csproj`; the custom list, the flags and the detection function stay |
| PatcherConfig.NetCoreVersionPatcherConfig.PatchVbProjects | AutoVersionIt/Patches/Configuration/NetCoreVersionPatcherConfig.cs:29-35 | Adds `**/*.vbproj` and `*.vbproj`; the custom list, the flags and the detection function stay |
| PatcherConfig.NetCoreVersionPatcherConfig.WithFilters | AutoVersionIt/Patches/Configuration/NetCoreVersionPatcherConfig.cs:37-43 | Adds every filter, or throws Argument at the first blank one after adding those before it; the globber and wildcard lists, the flags and the detection function stay |
| PatcherConfig.NetCoreVersionPatcherConfig.WithCustomFilter | AutoVersionIt/Patches/Configuration/NetCoreVersionPatcherConfig.cs:45-50 | Adds one non-blank filter, or throws Argument and adds nothing; the globber and wildcard lists, the flags and the detection function stay |
| PatcherConfig.NetCoreVersionPatcherConfig.ClearFilters | AutoVersionIt/Patches/Configuration/NetCoreVersionPatcherConfig.cs:52-58 | Empties all three lists; the flags and the detection function stay |
| PatcherConfig.NuspecVersionPatcherConfig.InsertAttributesIfMissing | AutoVersionIt/Patches/Configuration/NuspecVersionPatcherConfig.cs:7-12 | Turns element insertion on |
| PatcherConfig.NuspecVersionPatcherConfig.IgnoreMissingAttributes | AutoVersionIt/Patches/Configuration/NuspecVersionPatcherConfig.cs:14-19 | Turns element insertion off |
| PatcherConfig.NuspecVersionPatcherConfig.PatchNuspecFiles | AutoVersionIt/Patches/Configuration/NuspecVersionPatcherConfig.cs:21-27 | Adds `**/*.nuspec` and `*.nuspec`; the custom list, the flags and the detection function stay |
| PatcherConfig.NuspecVersionPatcherConfig.WithFilters | AutoVersionIt/Patches/Configuration/NuspecVersionPatcherConfig.cs:29-35 | Adds every filter, or throws Argument at the first blank one after adding those before it; the globber and wildcard lists, the flags and the detection function stay |
| PatcherConfig.NuspecVersionPatcherConfig.WithCustomFilter | AutoVersionIt/Patches/Configuration/NuspecVersionPatcherConfig.cs:37-42 | Adds one non-blank filter, or throws Argument and adds nothing; the globber and wildcard lists, the flags and the detection function stay |
| PatcherConfig.NuspecVersionPatcherConfig.ClearFilters | AutoVersionIt/Patches/Configuration/NuspecVersionPatcherConfig.cs:44-50 | Empties all three lists; the flags and the detection function stay |
| PatcherConfig.TextFilePatcherConfig.WithFilters | AutoVersionIt/Patches/Configuration/TextFilePatcherConfig.cs:5-11 | Adds every filter, or throws Argument after the filters before the first blank one; with no built-in filters, `Filters` is the custom list; the globber and wildcard lists, the flags and the detection function stay |
| PatcherConfig.TextFilePatcherConfig.WithCustomFilter | AutoVersionIt/Patches/Configuration/TextFilePatcherConfig.cs:13-18 | Adds one non-blank filter, or throws Argument and adds nothing; with no built-in filters, `Filters` is the custom list; the globber and wildcard lists, the flags and the detection function stay |
| PatcherConfig.TextFilePatcherConfig.ClearFilters | AutoVersionIt/Patches/Configuration/TextFilePatcherConfig.cs:20-26 | Empties all three lists, so `Filters` is empty; the flags and the detection function stay |
| Patchers.VersionPatcher.constructor | AutoVersionIt/Patches/NetFxVersionPatcher.cs:17-30 | A patcher keeps its kind, configuration, source directory, file system and codecs |
| Patchers.VersionPatcher.Patch | AutoVersionIt/Patches/VersionPatcherBase.cs:23-38 | Finds the files as the configuration says and patches each in turn; the outcome and the files are those `PlanEffect` gives |
| Patchers.VersionPatcher.PatchFiles | AutoVersionIt/Patches/VersionPatcherBase.cs:33-37 | The foreach patches the files in order and stops at the first exception, as `PatchEach` gives |
| Patchers.VersionPatcher.GetFilesToPatchSimple | AutoVersionIt/Patches/VersionPatcherBase.cs:40-51 | One directory search per filter, in the order of `Filters`, duplicates kept |
| Patchers.VersionPatcher.GetFilesToPatchGlobber | AutoVersionIt/Patches/VersionPatcherBase.cs:53-63 | Throws NotSupported when recursion is off, and otherwise returns the globber's matches for `Filters` |
| Patchers.VersionPatcher.PatchFile | AutoVersionIt/Patches/NetFxVersionPatcher.cs:32-57 | Skips a missing file, dispatches on the detected kind and refuses an unhandled kind with NotSupported, as `PatchOne` gives |
| Patchers.VersionPatcher.PatchCSharpFile | AutoVersionIt/Patches/NetFxVersionPatcher.cs:59-106 | Reads the lines in the guessed encoding, applies the usings when checked and then the attribute rules (in insert mode the corrected informational line), and writes the lines back |
| Patchers.VersionPatcher.PatchVbFile | AutoVersionIt/Patches/NetFxVersionPatcher.cs:108-155 | The same for a VB file with the Imports and the VB attribute rules |
| Patchers.VersionPatcher.PatchCppFile | AutoVersionIt/Patches/NetFxVersionPatcher.cs:157-202 | The same for a C++/CLI file with the two `using namespace` lines and the attribute rules ending in ';' |
| Patchers.VersionPatcher.PatchTextFile | AutoVersionIt/Patches/TextFilePatcher.cs:53-82 | Updates the `Version = ` line, or appends one when there is none, and writes the lines back |
| Patchers.VersionPatcher.PatchProjectFile | AutoVersionIt/Patches/NetCoreVersionPatcher.cs:55-85 | Loads the project document, makes the three element writes and saves it in the encoding it was read in |
| Patchers.VersionPatcher.PatchNuspecFile | AutoVersionIt/Patches/NuspecVersionPatcher.cs:33-58 | Loads the package document, writes its version element and saves it, as UTF-8 if it was read as ASCII |
| Patchers.VersionPatcher.WriteProjectElements | AutoVersionIt/Patches/NetCoreVersionPatcher.cs:65-76 | The three writes, created when missing if insertion is on and only updated otherwise, give the document `ProjectDocument` gives |
| Patchers.VersionPatcher.WriteNuspecElement | AutoVersionIt/Patches/NuspecVersionPatcher.cs:45-49 | The single write gives the document `NuspecDocument` gives |
| Patchers.PatchOneFrame | AutoVersionIt/Patches/VersionPatcherBase.cs:33-37 | Patching a file writes at most that file, and writes nothing when it fails |
| Patchers.PatchOneRefusals | AutoVersionIt/Patches/NetFxVersionPatcher.cs:34-56 | A missing file is skipped, a detection error propagates, an unhandled kind throws NotSupported, and none of them touches the files |
| Patchers.RefusedKinds | AutoVersionIt/Patches/NetCoreVersionPatcher.cs:44-52 | Each patcher refuses the kinds that belong to another |
| Patchers.PatchEachConcat | AutoVersionIt/Patches/VersionPatcherBase.cs:33-37 | Patching a concatenated list patches the first part and, unless it failed, then the second |
| Patchers.PatchEachFrame | AutoVersionIt/Patches/VersionPatcherBase.cs:33-37 | A run adds and removes no file and leaves every file not in its list as it was |
| Patchers.PatchEachAllMissing | AutoVersionIt/Patches/VersionPatcherBase.cs:33-37 | A list of files none of which exists changes nothing and raises nothing |
| Patchers.GlobberNeedsRecursion | AutoVersionIt/Patches/VersionPatcherBase.cs:55 | The globber with recursion off throws NotSupported before any file is touched |
| Patchers.SimpleSearchConcat | AutoVersionIt/Patches/VersionPatcherBase.cs:44-48 | The simple search over two filter lists is the search over the first followed by the search over the second |
| Patchers.SimpleSearchKeepsDuplicates | AutoVersionIt/Patches/VersionPatcherBase.cs:44-48 | A filter named twice finds its files twice |
| Patchers.ProjectPaths | AutoVersionIt/Patches/NetCoreVersionPatcher.cs:67-69 | The three project paths split into Project, PropertyGroup and the element name |
| Patchers.NuspecPath | AutoVersionIt/Patches/NuspecVersionPatcher.cs:46 | The nuspec path splits into package, metadata and version |
| Patchers.UpdateThree | AutoVersionIt/Patches/NetCoreVersionPatcher.cs:73-75 | Three updates never throw, and change nothing when none of the paths exists |
| Patchers.ProjectUpdateOnly | AutoVersionIt/Patches/NetCoreVersionPatcher.cs:71-76 | Without insertion the project writes never throw, and a project holding none of the elements is left as it was |
| Patchers.ProjectInsertReadsInformational | AutoVersionIt/Patches/NetCoreVersionPatcher.cs:65-70 | With insertion, the informational version is readable afterwards at its path |
| Patchers.NuspecInsertReads | AutoVersionIt/Patches/NuspecVersionPatcher.cs:45-46 | With insertion, a successful write leaves the version readable at /package/metadata/version |
| Patchers.NuspecUpdateKeeps | AutoVersionIt/Patches/NuspecVersionPatcher.cs:47-49 | Without insertion the write never throws, and a missing version element stays missing |
| Patchers.AsciiNuspecSavedAsUtf8 | AutoVersionIt/Patches/NuspecVersionPatcher.cs:53 | A file read as ASCII is saved as UTF-8 by the nuspec patcher, but kept as ASCII by the project patcher |
| Patchers.TextFilePatchedOnce | AutoVersionIt/Patches/TextFilePatcher.cs:53-82 | Patching a text file a second time leaves it as the first run did, when the codec reads back what it wrote |
| Patchers.InsertThree | AutoVersionIt/Patches/NetFxVersionPatcher.cs:82-84 | Three insert-or-update calls in order |
| Patchers.InsertTwo | AutoVersionIt/Patches/NetFxVersionPatcher.cs:177-178 | Two insert-or-update calls in order |
| Patchers.AppendThree | AutoVersionIt/Patches/NetFxVersionPatcher.cs:89-91 | Three append-or-update calls in order |
| Patchers.PatchThree | AutoVersionIt/Patches/NetFxVersionPatcher.cs:95-97 | Three patch-only calls in order |
| Patchers.PatchContents | AutoVersionIt/Patches/NetCoreVersionPatcher.cs:55-85 | A missing file is FileNotFound; otherwise the file is rewritten in its guessed encoding, and nothing is written when the rewrite fails (`PatchOneFrame`) |
| Patchers.PatchOne | AutoVersionIt/Patches/NetFxVersionPatcher.cs:32-57 | PatchFile: a file that does not exist is skipped, a detection error propagates, an unhandled kind is NotSupported, and a handled one is rewritten (`PatchOneRefusals`, `PatchOneFrame`, `RefusedKinds`) |
| Patchers.FilesToPatch | AutoVersionIt/Patches/VersionPatcherBase.cs:23-63 | The globber's matches when it is on, which needs recursion, otherwise one directory search per filter (`GlobberNeedsRecursion`, `SimpleSearchConcat`, `SimpleSearchKeepsDuplicates`) |
| Patchers.PlanEffect | AutoVersionIt/Patches/VersionPatcherBase.cs:23-38 | Patch under a configuration: find the files, then patch them in order up to the first failure (`PatchEachConcat`, `PatchEachFrame`, `PatchEachAllMissing`) |
| Patchers.ProjectDocument | AutoVersionIt/Patches/NetCoreVersionPatcher.cs:65-76 | The AssemblyVersion, FileVersion and AssemblyInformationalVersion writes in that order, created when insertion is on (`UpdateThree`, `ProjectUpdateOnly`, `ProjectInsertReadsInformational`) |
| Patchers.NuspecDocument | AutoVersionIt/Patches/NuspecVersionPatcher.cs:45-49 | The /package/metadata/version write, created when insertion is on (`NuspecInsertReads`, `NuspecUpdateKeeps`) |
| Patchers.VersionPatcher.Plan | AutoVersionIt/Patches/VersionPatcherBase.cs:23-38 | What the configuration decides for Patch: the patcher's flags, the detection function and the files `FilesToPatch` selects |
| Disk.FileSystem.constructor | AutoVersionIt/Sources/FileBasedSimpleVersionControl.cs:60-62 | The file system holds the given files |
| Disk.ReaderSkipsUtf8Mark | AutoVersionIt/Sources/FileBasedSimpleVersionControl.cs:63 | The StreamReader skips a leading UTF-8 mark and decodes the bytes after it |
| Disk.AsciiDecode | AutoVersionIt/Sources/FileBasedSimpleVersionControl.cs:63 | ASCII decoding keeps the length and turns each byte above 127 into '?' |
| Disk.AsciiEncode | AutoVersionIt/Sources/FileBasedSimpleVersionControl.cs:105-110 | ASCII encoding keeps the length and turns each character above 127 into '?' |
| Disk.AsciiRoundTrip | AutoVersionIt/Sources/FileBasedSimpleVersionControl.cs:63-110 | Reading back what was written in ASCII gives the text with its non-ASCII characters as '?' |
| Disk.LineEnd | AutoVersionIt/Sources/FileBasedSimpleVersionControl.cs:66-70 | The first line ends at the first CR or LF, and holds no terminator |
| Disk.ReadLines | AutoVersionIt/Sources/FileBasedSimpleVersionControl.cs:66-70 | No line read holds a terminator |
| Disk.ReadLinesCons | AutoVersionIt/Sources/FileBasedSimpleVersionControl.cs:66-70 | A line followed by a newline, LF or CRLF, is the first line read back |
| Disk.ReadWrittenLines | AutoVersionIt/Patches/NetFxVersionPatcher.cs:100-102 | Reading back what `WriteLine` wrote gives the same lines, when none holds a terminator |
| Disk.BrokenLineSplits | AutoVersionIt/Patches/NetFxVersionPatcher.cs:100-102 | A line with a line feed inside comes back as two lines |
| FileVersionControl.FileBasedSimpleVersionControl.constructor | AutoVersionIt/Sources/FileBasedSimpleVersionControl.cs:39-47 | Once the argument checks pass, the store keeps the file name, the reader and the file system |
| FileVersionControl.FileBasedSimpleVersionControl.Create | AutoVersionIt/Sources/FileBasedSimpleVersionControl.cs:39-47 | Construction fails exactly when the checks fail (null config, blank file name, null reader, in that order), with their exception; otherwise it yields a store on that file |
| FileVersionControl.FileBasedSimpleVersionControl.GetCurrentVersion | AutoVersionIt/Sources/FileBasedSimpleVersionControl.cs:58-84 | The line loop over the file, read as ASCII after any UTF-8 mark, returns exactly `ReadVersion` of the file's bytes |
| FileVersionControl.ReadVersionSkipsUtf8Mark | AutoVersionIt/Sources/FileBasedSimpleVersionControl.cs:62-63 | A UTF-8 byte-order mark in front of the file does not change the version read |
| FileVersionControl.FileBasedSimpleVersionControl.SetNewVersion | AutoVersionIt/Sources/FileBasedSimpleVersionControl.cs:94-116 | The version file is replaced by the stored lines in ASCII; no other file changes |
| FileVersionControl.KeyEndsAtEquals | AutoVersionIt/Sources/FileBasedSimpleVersionControl.cs:74-76 | A line starting with "Version=" in any case splits into at least two pieces at '=' |
| FileVersionControl.KeyMustBeVersion | AutoVersionIt/Sources/FileBasedSimpleVersionControl.cs:74-76 | A `key=value` line is taken exactly when the key is "Version" ignoring case, and its value stops at the next '=' |
| FileVersionControl.CommentsSkipped | AutoVersionIt/Sources/FileBasedSimpleVersionControl.cs:69-71 | Blank lines and lines starting with "//" or "#" once trimmed are never taken |
| FileVersionControl.PartLinesSkipped | AutoVersionIt/Sources/FileBasedSimpleVersionControl.cs:74 | The CanonicalVersion, VersionMajor and other lines the writer adds are never taken for Version |
| FileVersionControl.CleanedEntry | AutoVersionIt/Sources/FileBasedSimpleVersionControl.cs:70-72 | A written `key = value` line cleans to `key=value` |
| FileVersionControl.ScanFirstTaken | AutoVersionIt/Sources/FileBasedSimpleVersionControl.cs:65-81 | The first taken line decides the result, whatever follows it |
| FileVersionControl.ScanNothingTaken | AutoVersionIt/Sources/FileBasedSimpleVersionControl.cs:83 | A file with no taken line reads as 0.0.0.0 |
| FileVersionControl.ScanIgnoresThrowIfEmpty | AutoVersionIt/Sources/FileBasedSimpleVersionControl.cs:77-79 | ShouldThrowIfEmpty never matters here, because a blank value returns 0.0.0.0 before the reader sees it |
| FileVersionControl.MissingFileIsZero | AutoVersionIt/Sources/FileBasedSimpleVersionControl.cs:60 | A missing file reads as 0.0.0.0 |
| FileVersionControl.VersionLine | AutoVersionIt/Sources/FileBasedSimpleVersionControl.cs:108 | The Version line of a storable value is one ASCII line that the reader takes, with the rendering as its value |
| FileVersionControl.StoredVersionReadsBack | AutoVersionIt/Sources/FileBasedSimpleVersionControl.cs:58-116 | `GetCurrentVersion` after `SetNewVersion(v)` returns v for every storable value, whichever newline the platform writes |
| FileVersionControl.FirstLineReadBack | AutoVersionIt/Sources/FileBasedSimpleVersionControl.cs:63-67 | The first line written in ASCII comes back first from ReadLine, ahead of the lines after it |
| FileVersionControl.ReadVersion | AutoVersionIt/Sources/FileBasedSimpleVersionControl.cs:58-84 | A missing file is 0.0.0.0; otherwise the first taken `Version=` line decides (`ScanFirstTaken`, `ScanNothingTaken`, `MissingFileIsZero`, `ReadVersionSkipsUtf8Mark`, `StoredVersionReadsBack`) |
| FileVersionControl.StoreLines | AutoVersionIt/Sources/FileBasedSimpleVersionControl.cs:96-115 | The six `key = value` lines SetNewVersion always writes, and the VersionSuffix line only when the trimmed dynamic suffix is not blank (`VersionLine`, `StoredVersionReadsBack`) |
| EnvVersionControl.SetVariable | AutoVersionIt/Sources/EnvironmentVariableVersionControl.cs:88-94 | `SetEnvironmentVariable` throws ArgumentException exactly for a name that is empty, starts with NUL or holds a `=`, and otherwise succeeds |
| EnvVersionControl.Assigned | AutoVersionIt/Sources/EnvironmentVariableVersionControl.cs:88-94 | What an accepted `SetEnvironmentVariable` does: a value that is empty or starts with NUL deletes the variable, any other value is stored, and every other variable is left alone |
| EnvVersionControl.PartNameValid | AutoVersionIt/Sources/EnvironmentVariableVersionControl.cs:89-94 | Appending `_` and a part without `=` to an accepted name gives an accepted name |
| EnvVersionControl.PartNamesValid | AutoVersionIt/Sources/EnvironmentVariableVersionControl.cs:89-94 | All six part names of an accepted name are accepted, so after the first call none of the later six can throw |
| EnvVersionControl.PublishedInOrder | AutoVersionIt/Sources/EnvironmentVariableVersionControl.cs:86-95 | `Published` is the seven `SetVariable` calls made in the source's order, stopping at the first that throws (`SevenSets`) |
| EnvVersionControl.PublishedOutcome | AutoVersionIt/Sources/EnvironmentVariableVersionControl.cs:86-95 | The seven calls throw exactly when the name is refused, and then with ArgumentException |
| EnvVersionControl.Environment.SetEnvironmentVariable | AutoVersionIt/Sources/EnvironmentVariableVersionControl.cs:88 | Throws ArgumentException, leaving the environment as it was, exactly when `SetVariable` refuses the name; otherwise the environment becomes `Assigned` of the old one |
| EnvVersionControl.EnvironmentVariableVersionControl.constructor | AutoVersionIt/Sources/EnvironmentVariableVersionControl.cs:38-44 | Once the argument checks pass, the store keeps the variable name, the reader and the environment |
| EnvVersionControl.EnvironmentVariableVersionControl.Create | AutoVersionIt/Sources/EnvironmentVariableVersionControl.cs:38-44 | Construction fails exactly when the checks fail (null config, blank name, null reader, in that order), with their exception |
| EnvVersionControl.EnvironmentVariableVersionControl.GetCurrentVersion | AutoVersionIt/Sources/EnvironmentVariableVersionControl.cs:54-80 | Returns exactly `EnvVersion`: 0.0.0.0 for an unset or blank variable, else the reader's result on the value with spaces and tabs removed |
| EnvVersionControl.EnvironmentVariableVersionControl.SetNewVersion | AutoVersionIt/Sources/EnvironmentVariableVersionControl.cs:86-95 | Throws ArgumentException at the first call, with nothing changed, exactly when `Published` refuses the name; otherwise the seven variables are set in the source's order, giving `Published` of the old environment |
| EnvVersionControl.UnsetIsZero | AutoVersionIt/Sources/EnvironmentVariableVersionControl.cs:56-68 | An unset or blank variable reads as 0.0.0.0 whatever the part variables hold |
| EnvVersionControl.CleanedNotBlank | AutoVersionIt/Sources/EnvironmentVariableVersionControl.cs:76-77 | Trimming and removing spaces and tabs keeps a non-blank value non-blank |
| EnvVersionControl.EnvIgnoresThrowIfEmpty | AutoVersionIt/Sources/EnvironmentVariableVersionControl.cs:57-79 | ShouldThrowIfEmpty never matters, because a blank value returns 0.0.0.0 before the reader sees it |
| EnvVersionControl.PartNamesDistinct | AutoVersionIt/Sources/EnvironmentVariableVersionControl.cs:89-94 | The part variable names differ from NAME and from each other |
| EnvVersionControl.PublishedKeepsOthers | AutoVersionIt/Sources/EnvironmentVariableVersionControl.cs:86-95 | When `Published` succeeds, every variable other than the seven is left as it was |
| EnvVersionControl.PublishedVersion | AutoVersionIt/Sources/EnvironmentVariableVersionControl.cs:88 | When `Published` succeeds, NAME holds the rendering |
| EnvVersionControl.RenderingNotEmpty | AutoVersionIt/Sources/EnvironmentVariableVersionControl.cs:88 | The rendering is never empty and starts with a digit, so it never deletes NAME |
| EnvVersionControl.PublishedParts | AutoVersionIt/Sources/EnvironmentVariableVersionControl.cs:90-94 | When `Published` succeeds, NAME_MAJOR and NAME_REVISION hold the numbers; NAME_SUFFIX holds the trimmed dynamic suffix, and is deleted when that is empty or starts with NUL |
| EnvVersionControl.PublishedMiddleParts | AutoVersionIt/Sources/EnvironmentVariableVersionControl.cs:89-92 | When `Published` succeeds, NAME_CANONICAL holds the full canonical string, NAME_MINOR and NAME_BUILD the numbers |
| EnvVersionControl.PublishedReadsBack | AutoVersionIt/Sources/EnvironmentVariableVersionControl.cs:54-95 | For an accepted name, `SetNewVersion(v)` succeeds and `GetCurrentVersion` then returns v, for every round-tripping value whose fixed suffix holds no space or tab |
| EnvVersionControl.EnvVersion | AutoVersionIt/Sources/EnvironmentVariableVersionControl.cs:54-80 | An unset or blank variable is 0.0.0.0; otherwise its value, trimmed and stripped of spaces and tabs, is parsed (`UnsetIsZero`, `EnvIgnoresThrowIfEmpty`, `PublishedReadsBack`) |
| EnvVersionControl.Published | AutoVersionIt/Sources/EnvironmentVariableVersionControl.cs:86-95 | A name that is empty, starts with NUL or holds `=` is ArgumentException; otherwise the variable and its six `_CANONICAL` to `_SUFFIX` parts are set in order, where a value that is empty or starts with NUL unsets (`PublishedInOrder`, `PublishedOutcome`, `PublishedVersion`, `PublishedParts`, `PublishedKeepsOthers`) |
| Cli.ParseBump | AutoVersionIt/CliProcess.cs:108 | A parsed bump method is the member whose name equals the trimmed text, ignoring case |
| Cli.ParseBumpName | AutoVersionIt/CliProcess.cs:108 | Every member's name, in any letter case, parses to that member |
| Cli.NamesDiffer | AutoVersionIt/CliProcess.cs:108 | No text matches the names of two members, so the parse is unambiguous |
| Cli.FirstFlagWins | AutoVersionIt/CliProcess.cs:100-104 | The first flag in the fixed order that the arguments hold decides, whatever later flags say |
| Cli.FlagBumpIgnoresOrder | AutoVersionIt/CliProcess.cs:100-104 | The flags depend only on which arguments are present, not on their order or repetition |
| Cli.MajorFlagFirst | AutoVersionIt/CliProcess.cs:98-100 | `--major` gives Major whatever the variable and the configuration hold |
| Cli.NoBumpFlag | AutoVersionIt/CliProcess.cs:98-105 | `--nobump` with none of the bumping flags gives None, before the variable and the configuration |
| Cli.VariableBeforeSetting | AutoVersionIt/CliProcess.cs:107-115 | Without a flag, a variable naming a member wins over the configuration |
| Cli.NoBumpMethodRefused | AutoVersionIt/CliProcess.cs:96-120 | The method fails, with InvalidOperationException, exactly when no flag, no usable variable and no usable setting exist |
| Cli.PatchKeeping | AutoVersionIt/CliProcess.cs:73-79 | One patcher's Patch has that patcher's effect, and leaves the other patchers' configurations as they were |
| Cli.CliProcess.constructor | AutoVersionIt/CliProcess.cs:22-35 | The process keeps the arguments, the configuration entries, the source, the targets, the patchers and the strategy it is given |
| Cli.CliProcess.GetVersionBumpMethod | AutoVersionIt/CliProcess.cs:96-120 | Returns `BumpMethod` of the arguments, the process environment and the configuration entries |
| Cli.CliProcess.ReadSource | AutoVersionIt/CliProcess.cs:65 | Returns what the source's GetCurrentVersion gives in the current disk and environment |
| Cli.CliProcess.ApplyPatchers | AutoVersionIt/CliProcess.cs:71-80 | Runs every patcher in order and stops at the first exception, ending in `PatchersEffect` of the old files |
| Cli.CliProcess.ApplyTarget | AutoVersionIt/CliProcess.cs:89 | One target's SetNewVersion: it throws, with disk and environment unchanged, exactly when `TargetEffect` fails, and otherwise leaves `TargetEffect` of the old disk and environment |
| Cli.CliProcess.ApplyTargets | AutoVersionIt/CliProcess.cs:82-91 | Every target in order, stopping at the first that throws: the outcome and the disk and environment left are `TargetsEffect` of the old ones |
| Cli.CliProcess.NextVersionOfRun | AutoVersionIt/CliProcess.cs:62-69 | The bump method, then the source read once, then one increment by the strategy |
| Cli.CliProcess.Publish | AutoVersionIt/CliProcess.cs:71-91 | The patchers, then the targets only if no patcher threw |
| Cli.CliProcess.Run | AutoVersionIt/CliProcess.cs:37-94 | The outcome and the disk and environment it leaves are `Effect` of the old ones |
| Cli.FailedRunKeepsEnvironment | AutoVersionIt/CliProcess.cs:62-91 | A run that throws has not changed the process environment, unless one of its targets is an environment store whose name .NET refuses: everything before the targets leaves the environment alone, and only such a target throws |
| Cli.FileTargetsKeepOtherFiles | AutoVersionIt/CliProcess.cs:82-91 | File targets never throw, change only their own files and never the environment |
| Cli.EnvRunFeedsNextRun | AutoVersionIt/CliProcess.cs:62-91 | A run without patchers whose source and only target is one environment store succeeds exactly when the variable name is accepted; a refused name throws ArgumentException with nothing changed, and otherwise the next run reads the next version |
| Cli.TargetRefusal | AutoVersionIt/CliProcess.cs:89 | One target throws exactly when it is an environment store whose name .NET refuses, and then with ArgumentException |
| Cli.TargetsFailAtRefusedName | AutoVersionIt/CliProcess.cs:82-91 | The targets throw exactly when one of them is an environment store with a refused name, and then with ArgumentException |
| Cli.TargetsStopAtRefusedName | AutoVersionIt/CliProcess.cs:82-91 | The first refused target ends the loop: the targets before it have run, and none after it runs |
| Cli.NoPatchersEffect | AutoVersionIt/CliProcess.cs:71-91 | Without patchers, a run whose next version is computed is the targets' effect alone |
| Cli.TargetEffect | AutoVersionIt/CliProcess.cs:89 | The effect of one target's SetNewVersion: a file target writes its file, an environment target applies `Published` (`TargetRefusal`, `FileTargetsKeepOtherFiles`) |
| Cli.TargetsEffect | AutoVersionIt/CliProcess.cs:82-91 | The targets in order, stopping at the first that throws (`TargetsFailAtRefusedName`, `TargetsStopAtRefusedName`) |
| Cli.Lookup | AutoVersionIt/CliProcess.cs:113 | `Configuration["bumpMethod"]`: no value exactly when no entry's key equals the key ignoring case; otherwise the value of the last such entry, since later providers override earlier ones |
| Cli.SettingKeyIgnoresCase | AutoVersionIt/CliProcess.cs:111-116 | The setting is found under its key in any letter case |
| Cli.CapitalisedSettingKey | AutoVersionIt/CliProcess.cs:111-116 | A configuration `{"BumpMethod": "Minor"}`, with no flag and no variable, selects Minor |
| Cli.BumpMethod | AutoVersionIt/CliProcess.cs:96-120 | The first bump flag, then the environment variable when it is not blank, then the configuration setting, whose key compares ignoring case; with none of them InvalidOperation (`FirstFlagWins`, `VariableBeforeSetting`, `NoBumpMethodRefused`, `CapitalisedSettingKey`) |
| Cli.CliProcess.Effect | AutoVersionIt/CliProcess.cs:37-94 | Run as a function of the world: the next version, or the first error with nothing changed; then the patchers and the targets in order (`FailedRunKeepsEnvironment`, `FileTargetsKeepOtherFiles`, `EnvRunFeedsNextRun`) |

## Left out

- GitTagVersionControl and the Interop child-process classes are not part of this model: they shell out to git, and the only logic above the process calls is exit-code checks and quote stripping.
- Program.cs, ServiceConfiguration.cs and Configuration.cs are not part of this model: dependency-injection wiring, JSON configuration loading and logging setup. The process receives its source, targets, patchers, strategy and configuration as constructor arguments. The configuration is the list of its key-value entries in provider order (`Cli.Settings`); section paths with `:` are not used by the core.
- Logging is left out everywhere. It has no effect on results; the target and patcher names that `Run` computes only feed the log.
- The interfaces IVersionSource, IVersionTarget, IVersionPatcher and IVersioningStrategy have no behaviour of their own. They become the datatypes `Cli.VersionSource`, `Cli.VersionTarget` and `Strategies.Strategy`, which name the implementations, and the patchers share one class, `Patchers.VersionPatcher`, whose kind picks the dialect. Inheritance from VersionPatcherBase and VersioningStrategyBase becomes this composition.
- The .NET regular-expression engine is left out. Each pattern is a token sequence recognised by `LinePatterns.FullMatch`. `\s` is `char.IsWhiteSpace` (`Text.IsWhite`), as are `Trim()` and `IsNullOrWhiteSpace`; `int.Parse` skips only the ASCII part of that set (`Text.IsNumberWhite`), and also accepts NUL characters after its trailing white (`Text.StripNul`). Case-insensitivity folds ASCII letters only.
- LinePatterns.RegexReplace: the replacement is copied literally. Regex.Replace reads `$0`, `$1`, `${name}`, `$$` and the other `$` forms in it as substitutions, and the replacement holds the version text, whose suffixes may contain `$`; a suffix with `$` is patched differently in C#.
- Culture-sensitive behaviour is left out. Case-insensitive comparison and `int.Parse` are modelled as their invariant, ASCII forms.
- XmlDocument parsing and saving, StreamReader.ReadLine and StreamWriter.WriteLine for a given encoding are the `Patchers.Codec` parameter. XML is an element tree (`XmlTree.XNode`). The patchers' read-back properties are stated for codecs that read back what they write.
- XmlTree.AppendOrUpdateFrom: `CreateElement` checks that the segment is a valid XML name and throws XmlException otherwise (a segment such as `1a` or `#x`). The model creates the element under any name; the paths the patchers use are all valid names.
- Directory enumeration and the Matcher glob library are the `Patchers.SourceDirectory` parameter. FileInfo is a value with a full name, an extension and an existence flag. Only the mode choice, the order of filters and the globber-needs-recursion refusal are modelled.
- File-open failures other than a missing file, FileShare modes and directory creation are left out. The file system is a map from full names to byte contents (`Disk.FileSystem`).
- Byte-order marks are detected (`StreamEncoding`), but the preamble that a StreamWriter writes again is part of the codec.
- FileVersionControl.ReadVersion, FileVersionControl.FileBasedSimpleVersionControl.GetCurrentVersion: of the byte-order marks the StreamReader detects, only the UTF-8 mark is modelled, and the bytes after it decode as ASCII. A version file with a UTF-16 or UTF-32 mark, or with non-ASCII bytes after a UTF-8 mark, reads differently in C#.
- Patchers.VersionPatcher.PatchProjectFile: the read-back property (`Patchers.ProjectInsertReadsInformational`) is stated for the informational element. The other two elements follow from `Patchers.UpdateThree` and are not restated one by one.
- Patchers.VersionPatcher.PatchCSharpFile, Dialects.CSharpLines, Dialects.CSharpFreshFile: in insert mode these write the corrected informational line ending in `")]`, where NetFxVersionPatcher.cs:91 writes `")];`. The line as written is `Dialects.AsWrittenCSharpInsertRules`, the difference is `Dialects.AsWrittenInsertDiffersBySemicolon`, and its effect (a second copy on every run) is `Dialects.AsWrittenInformationalDuplicates`; see "## Findings".
- Dialects.CSharpFreshFile, Dialects.VbFreshFile, Dialects.CppFreshFile: whole-file results are stated for a file with none of the lines. Idempotence of a whole-file patch is proved rule by rule (`Dialects.CSharpAttributeRulesIdempotent`, `Dialects.TextLinesIdempotent`), not for all rules composed.
- Enum.TryParse also accepts numeric strings and comma-separated member lists: `Cli.ParseBump` models member names only.
- The fluent methods return `this` in C#; the model's methods return nothing, because the object is the caller's own.
- Constructors that throw on bad arguments are split into a `Create` method returning a `Result` and a constructor whose preconditions are those checks.
- Int32 arithmetic is modelled where it shows. `++` on int.MaxValue wraps to int.MinValue, and the Version constructor then throws ArgumentOutOfRangeException. `int.Parse` overflow is an OverflowException. Unsigned and other widths do not occur.
- The file store reads all lines of the file before scanning them, where the C# stops reading at the first Version line. Only the result is modelled, and it is the same.
- Environment variable names are case-sensitive, as on Linux. Windows's case-insensitive environment is left out.
- EnvVersionControl.Environment.SetEnvironmentVariable: the refusals modelled are the name checks shared by every platform (empty, leading NUL, `=`). The Windows limit on name and value length is left out.
- Cli.TargetEffect, Cli.FileTargetsKeepOtherFiles: a file target never fails in the model. Write errors of the version file are left out with the other file-system failures.
- EnvVersionControl.EnvironmentVariableVersionControl.GetCurrentVersion: the fallback built from the `_MAJOR` to `_SUFFIX` variables is never used, because the code re-tests the first variable and returns 0.0.0.0. The model keeps this and reads none of those variables (`EnvVersionControl.UnsetIsZero`).
- The reader's default fixed suffix exercised by one of the reader's tests has no code in the source, so it is not modelled.
- Concurrency is left out; the process runs its steps sequentially.

## Findings

| source | as written | input that shows it | evidently intended | confidence | as-written member | corrected member |
|---|---|---|---|---|---|---|
| AutoVersionIt/Patches/NetFxVersionPatcher.cs:91 | In insert mode the C# AssemblyInformationalVersion line is written ending in `"];"`, and its own pattern, which ends in `]` at the end of the line, rejects it | A C# file without the informational attribute, patched twice in insert mode, holds two copies of the line | The line ends in `"]"`, as on the two lines above it and on the update-mode line, so a second run updates it | not executed | Dialects.AsWrittenInformationalDuplicates | Dialects.CSharpAttributeRulesIdempotent |
