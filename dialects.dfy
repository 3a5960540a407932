/**
 * The line rules of the .NET Framework and text patchers: for each source language,
 * the rules that bring in the namespaces the attributes need, and the rules that
 * rewrite (or add) the AssemblyVersion, AssemblyFileVersion and
 * AssemblyInformationalVersion attributes; for text files, the single Version rule.
 */
module Dialects {
  import opened Text
  import opened LinePatterns
  import opened LineRewriting
  import opened Versions

  // Version strings never break a line

  /** Neither suffix holds a line feed. */
  predicate SingleLine(v: VersionInformation) {
    '\n' !in v.fixedSuffix && '\n' !in v.dynamicSuffix
  }

  lemma DigitsSingleLine(n: nat)
    ensures '\n' !in NatToString(n)
  {
    var s := NatToString(n);
    assert forall i :: 0 <= i < |s| ==> s[i] != '\n';
  }

  lemma CanonicalSingleLine(c: Version)
    ensures '\n' !in FullCanonical(c) && '\n' !in ShortCanonical(c)
  {
    DigitsSingleLine(c.major);
    DigitsSingleLine(c.minor);
    DigitsSingleLine(c.build);
    DigitsSingleLine(c.revision);
  }

  lemma ToStringSingleLine(v: VersionInformation)
    requires SingleLine(v)
    ensures '\n' !in AsFullCanonicalString(v) && '\n' !in ToString(v)
  {
    CanonicalSingleLine(v.canonicalPart);
  }

  // Namespace imports: a keyword, at least one space, the namespace

  function ImportPattern(keyword: string, target: string): Pattern {
    [Lit(keyword), Spaces(true), Lit(target)]
  }

  function ImportLine(keyword: string, target: string): string {
    keyword + " " + target
  }

  /** An import line matches its own pattern and is left as it is on the next run. */
  lemma ImportSelfMatching(keyword: string, target: string)
    requires keyword != [] && !IsWhite(keyword[0])
    ensures SelfMatching(ImportPattern(keyword, target), ImportLine(keyword, target))
  {
    var e: string := [];
    LitCons(target, [], e);
    assert target + e == target;
    SpacesCons(true, [Lit(target)], " ", target);
    LitCons(keyword, [Spaces(true), Lit(target)], " " + target);
    assert [Spaces(true)] + [Lit(target)] == [Spaces(true), Lit(target)];
    assert [Lit(keyword)] + [Spaces(true), Lit(target)] == ImportPattern(keyword, target);
    assert keyword + (" " + target) == ImportLine(keyword, target);
    FullMatchOfMatch(ImportPattern(keyword, target), ImportLine(keyword, target));
  }

  /** Three import lines for one keyword each match their own pattern. */
  lemma ImportTripleSelfMatching(keyword: string, a: string, b: string, c: string)
    requires keyword != [] && !IsWhite(keyword[0])
    ensures var rules := [ Rule(ImportPattern(keyword, a), ImportLine(keyword, a)),
                           Rule(ImportPattern(keyword, b), ImportLine(keyword, b)),
                           Rule(ImportPattern(keyword, c), ImportLine(keyword, c)) ];
            forall r :: r in rules ==> SelfMatching(r.pattern, r.replacement)
  {
    ImportSelfMatching(keyword, a);
    ImportSelfMatching(keyword, b);
    ImportSelfMatching(keyword, c);
  }

  /** A line too short for the namespace at the end of a pattern does not match it. */
  lemma ImportTooShort(keyword: string, target: string, line: string)
    requires target != [] && line != [] && !IsWhite(line[|line| - 1]) && |line| < |target|
    ensures !FullMatch(ImportPattern(keyword, target), line)
  {
    if FullMatch(ImportPattern(keyword, target), line) {
      assert ImportPattern(keyword, target) == [Lit(keyword), Spaces(true)] + [Lit(target)];
      FullMatchEnd([Lit(keyword), Spaces(true)], target, line);
    }
  }

  // Assembly attributes: an opening, \s*, the attribute name, \s*, (.*), \s*, then a closing

  function AttributePattern(open: string, name: string, close: Pattern): Pattern {
    [Lit(open), Spaces(false), Lit(name), Spaces(false), Lit("("), AnyRun, Lit(")"), Spaces(false)] + close
  }

  /** The line the patchers write, with the value in double quotes. */
  function AttributeLine(open: string, name: string, value: string, close: string): string {
    open + " " + name + "(\"" + value + "\")" + close
  }

  /** A closing parenthesis, no white space, then the closing. */
  lemma CloseParenMatches(closePattern: Pattern, close: string)
    requires Matches(closePattern, close)
    ensures Matches([Lit(")"), Spaces(false)] + closePattern, ")" + close)
  {
    var e: string := [];
    SpacesCons(false, closePattern, e, close);
    assert e + close == close;
    LitCons(")", [Spaces(false)] + closePattern, close);
    assert [Lit(")")] + ([Spaces(false)] + closePattern) == [Lit(")"), Spaces(false)] + closePattern;
  }

  /** The argument list and the closing: (, any text without a line feed, ), \s*, the closing. */
  lemma ArgumentsMatch(value: string, closePattern: Pattern, close: string)
    requires '\n' !in value && Matches(closePattern, close)
    ensures Matches([Lit("("), AnyRun, Lit(")"), Spaces(false)] + closePattern, "(\"" + value + "\")" + close)
  {
    var p6 := [Lit(")"), Spaces(false)] + closePattern;
    CloseParenMatches(closePattern, close);
    var q := "\"" + value + "\"";
    AnyCons(p6, q, ")" + close);
    LitCons("(", [AnyRun] + p6, q + (")" + close));
    assert [Lit("(")] + ([AnyRun] + p6) == [Lit("("), AnyRun, Lit(")"), Spaces(false)] + closePattern;
    assert "(" + (q + (")" + close)) == "(\"" + value + "\")" + close;
  }

  /** A single space, the attribute name, then no white space, in front of what follows. */
  lemma SpacedNameMatches(name: string, p: Pattern, b: string)
    requires Matches(p, b)
    ensures Matches([Spaces(false), Lit(name), Spaces(false)] + p, " " + name + b)
  {
    var e: string := [];
    SpacesCons(false, p, e, b);
    assert e + b == b;
    LitCons(name, [Spaces(false)] + p, b);
    SpacesCons(false, [Lit(name)] + ([Spaces(false)] + p), " ", name + b);
    assert [Spaces(false)] + ([Lit(name)] + ([Spaces(false)] + p)) == [Spaces(false), Lit(name), Spaces(false)] + p;
    assert " " + (name + b) == " " + name + b;
  }

  lemma AttributeLineMatches(open: string, name: string, value: string, closePattern: Pattern, close: string)
    requires '\n' !in value && Matches(closePattern, close)
    ensures Matches(AttributePattern(open, name, closePattern), AttributeLine(open, name, value, close))
  {
    var p4 := [Lit("("), AnyRun, Lit(")"), Spaces(false)] + closePattern;
    var s4 := "(\"" + value + "\")" + close;
    ArgumentsMatch(value, closePattern, close);
    SpacedNameMatches(name, p4, s4);
    var p1 := [Spaces(false), Lit(name), Spaces(false)] + p4;
    LitCons(open, p1, " " + name + s4);
    assert [Lit(open)] + p1 == AttributePattern(open, name, closePattern);
    assert open + (" " + name + s4) == AttributeLine(open, name, value, close);
  }

  /** An attribute line matches its own pattern and is left as it is on the next run. */
  lemma AttributeSelfMatching(open: string, name: string, value: string, closePattern: Pattern, close: string)
    requires open != [] && !IsWhite(open[0])
    requires '\n' !in value && Matches(closePattern, close)
    ensures SelfMatching(AttributePattern(open, name, closePattern), AttributeLine(open, name, value, close))
  {
    AttributeLineMatches(open, name, value, closePattern, close);
    FullMatchOfMatch(AttributePattern(open, name, closePattern), AttributeLine(open, name, value, close));
    assert AttributeLine(open, name, value, close)[0] == open[0];
  }

  /** An attribute line does not match the pattern of an attribute whose name differs from it at k. */
  lemma AttributeNameDiffers(open: string, name: string, value: string, close: string, other: string, closePattern: Pattern, k: nat)
    requires open != [] && !IsWhite(open[0]) && name != [] && !IsWhite(name[0]) && other != [] && !IsWhite(other[0])
    requires k < |name| && k < |other| && ToLower(name[k]) != ToLower(other[k])
    ensures !FullMatch(AttributePattern(open, other, closePattern), AttributeLine(open, name, value, close))
  {
    var c := name + "(\"" + value + "\")" + close;
    var rest := [Spaces(false), Lit("("), AnyRun, Lit(")"), Spaces(false)] + closePattern;
    assert AttributePattern(open, other, closePattern) == [Lit(open), Spaces(false), Lit(other)] + rest;
    assert AttributeLine(open, name, value, close) == open + " " + c;
    assert c[k] == name[k] && c[0] == name[0];
    if FullMatch(AttributePattern(open, other, closePattern), AttributeLine(open, name, value, close)) {
      FullMatchSecondLit(open, other, rest, c);
    }
  }

  lemma AttributePatternStart(open: string, name: string, closePattern: Pattern)
    requires open != [] && !IsWhite(open[0])
    ensures StartsWithText(AttributePattern(open, name, closePattern))
    ensures AttributePattern(open, name, closePattern)[0].text[0] == open[0]
  {
    assert AttributePattern(open, name, closePattern)[0] == Lit(open);
  }

  /** A line whose first visible character is not the first character of a pattern's text does not match it. */
  lemma FirstVisibleDiffers(p: Pattern, line: string)
    requires StartsWithText(p) && LeadingWhite(line) < |line|
    requires ToLower(line[LeadingWhite(line)]) != ToLower(p[0].text[0])
    ensures !FullMatch(p, line)
  {
    if FullMatch(p, line) {
      FullMatchStart(p, line);
    }
  }

  // The value each attribute receives

  const AssemblyVersion := "AssemblyVersion"
  const AssemblyFileVersion := "AssemblyFileVersion"
  const AssemblyInformationalVersion := "AssemblyInformationalVersion"

  /** The three attribute rules of one language, in the order the patchers apply them. */
  function AttributeRules(open: string, closePattern: Pattern, close: string, v: VersionInformation): seq<Rule> {
    var full := AsFullCanonicalString(v);
    [ Rule(AttributePattern(open, AssemblyVersion, closePattern), AttributeLine(open, AssemblyVersion, full, close)),
      Rule(AttributePattern(open, AssemblyFileVersion, closePattern), AttributeLine(open, AssemblyFileVersion, full, close)),
      Rule(AttributePattern(open, AssemblyInformationalVersion, closePattern), AttributeLine(open, AssemblyInformationalVersion, ToString(v), close)) ]
  }

  /** Every attribute line matches its own pattern. */
  lemma AttributeRulesSelfMatching(open: string, closePattern: Pattern, close: string, v: VersionInformation)
    requires open != [] && !IsWhite(open[0]) && Matches(closePattern, close) && SingleLine(v)
    ensures forall r :: r in AttributeRules(open, closePattern, close, v) ==> SelfMatching(r.pattern, r.replacement)
  {
    ToStringSingleLine(v);
    var full := AsFullCanonicalString(v);
    AttributeSelfMatching(open, AssemblyVersion, full, closePattern, close);
    AttributeSelfMatching(open, AssemblyFileVersion, full, closePattern, close);
    AttributeSelfMatching(open, AssemblyInformationalVersion, ToString(v), closePattern, close);
  }

  /** No attribute line matches the pattern of an attribute applied after it. */
  lemma AttributeRulesDistinct(open: string, closePattern: Pattern, close: string, v: VersionInformation)
    requires open != [] && !IsWhite(open[0])
    ensures NoLaterMatch(AttributeRules(open, closePattern, close, v))
  {
    var full := AsFullCanonicalString(v);
    assert AssemblyVersion[8] == 'V' && AssemblyFileVersion[8] == 'F' && AssemblyInformationalVersion[8] == 'I';
    AttributeNameDiffers(open, AssemblyVersion, full, close, AssemblyFileVersion, closePattern, 8);
    AttributeNameDiffers(open, AssemblyVersion, full, close, AssemblyInformationalVersion, closePattern, 8);
    AttributeNameDiffers(open, AssemblyFileVersion, full, close, AssemblyInformationalVersion, closePattern, 8);
  }

  /** Every rule's pattern starts with text whose first character is c. */
  predicate AllStartWith(rules: seq<Rule>, c: char) {
    forall j :: 0 <= j < |rules| ==> StartsWithText(rules[j].pattern) && rules[j].pattern[0].text[0] == c
  }

  /** A line whose first visible character differs from c matches no such rule. */
  lemma FirstVisibleDiffersFromAll(rules: seq<Rule>, c: char, line: string)
    requires AllStartWith(rules, c)
    requires LeadingWhite(line) < |line| && ToLower(line[LeadingWhite(line)]) != ToLower(c)
    ensures NoneMatch([line], rules)
  {
    forall j | 0 <= j < |rules|
      ensures !FullMatch(rules[j].pattern, line)
    {
      FirstVisibleDiffers(rules[j].pattern, line);
    }
  }

  /** Such a line (a comment, say) is left verbatim by every rule. */
  lemma FirstVisibleDiffersKept(rules: seq<Rule>, c: char, line: string)
    requires AllStartWith(rules, c)
    requires LeadingWhite(line) < |line| && ToLower(line[LeadingWhite(line)]) != ToLower(c)
    ensures forall j :: 0 <= j < |rules| ==> PatchLine(rules[j].pattern, rules[j].replacement, line) == line
  {
    FirstVisibleDiffersFromAll(rules, c, line);
    assert forall j :: 0 <= j < |rules| ==> !FullMatch(rules[j].pattern, [line][0]);
  }

  lemma AttributeRulesStart(open: string, closePattern: Pattern, close: string, v: VersionInformation)
    requires open != [] && !IsWhite(open[0])
    ensures AllStartWith(AttributeRules(open, closePattern, close, v), open[0])
  {
    AttributePatternStart(open, AssemblyVersion, closePattern);
    AttributePatternStart(open, AssemblyFileVersion, closePattern);
    AttributePatternStart(open, AssemblyInformationalVersion, closePattern);
  }

  /** A line fails an import pattern when it is shorter than its namespace, or differs from it at k counted from the end. */
  lemma ImportEndMismatch(keyword: string, target: string, line: string, k: nat)
    requires target != [] && line != [] && !IsWhite(line[|line| - 1])
    requires |line| < |target| || (k < |target| <= |line| && ToLower(line[|line| - |target| + k]) != ToLower(target[k]))
    ensures !FullMatch(ImportPattern(keyword, target), line)
  {
    if k < |target| <= |line| {
      assert line[|line| - |target|..][k] == line[|line| - |target| + k];
    }
    if FullMatch(ImportPattern(keyword, target), line) {
      assert ImportPattern(keyword, target) == [Lit(keyword), Spaces(true)] + [Lit(target)];
      FullMatchEnd([Lit(keyword), Spaces(true)], target, line);
    }
  }

  /** A rule's line starts at its first character, so that character is its first visible one. */
  lemma StartsVisible(line: string)
    requires line != [] && !IsWhite(line[0])
    ensures LeadingWhite(line) == 0
  {
    LeadingWhiteAt(line, 0);
  }

  // C#

  const CSharpOpen := "[assembly:"

  function CSharpClose(): Pattern {
    [Lit("]")]
  }

  lemma CSharpCloseMatches()
    ensures Matches(CSharpClose(), "]")
  {
    var e: string := [];
    LitCons("]", [], e);
    assert "]" + e == "]";
  }

  /** using System.Reflection, System.Runtime.CompilerServices and System.Runtime.InteropServices, in that order. */
  function CSharpUsingRules(): seq<Rule> {
    [ Rule(ImportPattern("using", "System.Reflection;"), ImportLine("using", "System.Reflection;")),
      Rule(ImportPattern("using", "System.Runtime.CompilerServices;"), ImportLine("using", "System.Runtime.CompilerServices;")),
      Rule(ImportPattern("using", "System.Runtime.InteropServices;"), ImportLine("using", "System.Runtime.InteropServices;")) ]
  }

  function CSharpAttributeRules(v: VersionInformation): seq<Rule> {
    AttributeRules(CSharpOpen, CSharpClose(), "]", v)
  }

  /**
   * The rules as the insert mode writes them: the informational attribute line ends in "];",
   * which its own pattern does not accept.
   */
  function AsWrittenCSharpInsertRules(v: VersionInformation): seq<Rule> {
    var rules := CSharpAttributeRules(v);
    rules[..2] + [Rule(rules[2].pattern, AttributeLine(CSharpOpen, AssemblyInformationalVersion, ToString(v), "];"))]
  }

  /** The insert mode as written differs from the corrected rules only by the ';' after the informational line. */
  lemma AsWrittenInsertDiffersBySemicolon(v: VersionInformation)
    ensures AsWrittenCSharpInsertRules(v)[..2] == CSharpAttributeRules(v)[..2]
    ensures AsWrittenCSharpInsertRules(v)[2].pattern == CSharpAttributeRules(v)[2].pattern
    ensures AsWrittenCSharpInsertRules(v)[2].replacement == CSharpAttributeRules(v)[2].replacement + ";"
  {
    var x := CSharpOpen + " " + AssemblyInformationalVersion + "(\"" + ToString(v) + "\")";
    assert x + "];" == (x + "]") + ";";
  }

  /** The lines of a C# file after patching, with the corrected informational line in both modes. */
  function CSharpLines(lines: seq<string>, v: VersionInformation, checkUsings: bool, insert: bool): seq<string> {
    var imported := if checkUsings then InsertAll(lines, CSharpUsingRules()) else lines;
    if insert then AppendAll(imported, CSharpAttributeRules(v)) else PatchAll(imported, CSharpAttributeRules(v))
  }

  lemma CSharpUsingsDistinct()
    ensures NoLaterMatch(CSharpUsingRules())
  {
    var r := CSharpUsingRules();
    ImportEndMismatch("using", "System.Runtime.CompilerServices;", r[0].replacement, 0);
    ImportEndMismatch("using", "System.Runtime.InteropServices;", r[0].replacement, 0);
    assert r[1].replacement[7] == 'y';
    ImportEndMismatch("using", "System.Runtime.InteropServices;", r[1].replacement, 0);
  }

  lemma CSharpUsingsStart()
    ensures AllStartWith(CSharpUsingRules(), 'u')
  {
  }

  /** Each using line and each attribute line matches its own pattern. */
  lemma CSharpRulesSelfMatching(v: VersionInformation)
    requires SingleLine(v)
    ensures forall r :: r in CSharpUsingRules() ==> SelfMatching(r.pattern, r.replacement)
    ensures forall r :: r in CSharpAttributeRules(v) ==> SelfMatching(r.pattern, r.replacement)
  {
    ImportTripleSelfMatching("using", "System.Reflection;", "System.Runtime.CompilerServices;", "System.Runtime.InteropServices;");
    assert forall r :: r in CSharpAttributeRules(v) ==> SelfMatching(r.pattern, r.replacement) by {
      CSharpCloseMatches();
      AttributeRulesSelfMatching(CSharpOpen, CSharpClose(), "]", v);
    }
  }

  /** The C# using patterns start with u, the attribute patterns with [. */
  lemma CSharpRulesStart(v: VersionInformation)
    ensures AllStartWith(CSharpUsingRules(), 'u') && AllStartWith(CSharpAttributeRules(v), '[')
  {
    AttributeRulesStart(CSharpOpen, CSharpClose(), "]", v);
  }

  /** Every rule's replacement starts with the visible character d. */
  predicate AllWriteFirst(rules: seq<Rule>, d: char) {
    forall j :: 0 <= j < |rules| ==> |rules[j].replacement| > 0 && rules[j].replacement[0] == d && !IsWhite(d)
  }

  /** Lines written by rules that start with d match none of the rules whose patterns start with c. */
  lemma WrittenLinesDiffer(imports: seq<Rule>, d: char, attributes: seq<Rule>, c: char)
    requires AllWriteFirst(imports, d) && AllStartWith(attributes, c) && ToLower(d) != ToLower(c)
    ensures NoneMatch(Reversed(Replacements(imports)), attributes)
  {
    var lines := Reversed(Replacements(imports));
    forall i, j | 0 <= i < |lines| && 0 <= j < |attributes|
      ensures !FullMatch(attributes[j].pattern, lines[i])
    {
      WrittenLineDiffers(imports, d, attributes, c, |imports| - 1 - i, j);
    }
  }

  lemma WrittenLineDiffers(imports: seq<Rule>, d: char, attributes: seq<Rule>, c: char, i: nat, j: nat)
    requires AllWriteFirst(imports, d) && AllStartWith(attributes, c) && ToLower(d) != ToLower(c)
    requires i < |imports| && j < |attributes|
    ensures !FullMatch(attributes[j].pattern, imports[i].replacement)
  {
    StartsVisible(imports[i].replacement);
    FirstVisibleDiffers(attributes[j].pattern, imports[i].replacement);
  }

  /**
   * The insert mode on a file that has none of the imports and none of the attributes:
   * the imports go to the top in reverse order and the attribute lines to the bottom in order.
   */
  lemma ImportsThenAttributes(lines: seq<string>, imports: seq<Rule>, attributes: seq<Rule>)
    requires NoneMatch(lines, imports) && NoneMatch(lines, attributes)
    requires NoLaterMatch(imports) && NoLaterMatch(attributes)
    requires NoneMatch(Reversed(Replacements(imports)), attributes)
    ensures AppendAll(InsertAll(lines, imports), attributes)
         == Reversed(Replacements(imports)) + lines + Replacements(attributes)
  {
    var tops := Reversed(Replacements(imports));
    InsertAllFresh(lines, imports);
    NoneMatchConcat(tops, lines, attributes);
    AppendAllFresh(tops + lines, attributes);
  }

  lemma CSharpUsingOrder()
    ensures Reversed(Replacements(CSharpUsingRules()))
         == [ ImportLine("using", "System.Runtime.InteropServices;"),
              ImportLine("using", "System.Runtime.CompilerServices;"),
              ImportLine("using", "System.Reflection;") ]
  {
    var r := CSharpUsingRules();
    var reps := Replacements(r);
    assert reps == [r[0].replacement, r[1].replacement, r[2].replacement];
    assert Reversed(reps) == [reps[2], reps[1], reps[0]];
  }

  /** On a file with none of the usings and none of the attributes, the insert mode adds all six lines. */
  lemma CSharpFreshFile(lines: seq<string>, v: VersionInformation)
    requires NoneMatch(lines, CSharpUsingRules()) && NoneMatch(lines, CSharpAttributeRules(v))
    ensures CSharpLines(lines, v, true, true)
         == Reversed(Replacements(CSharpUsingRules())) + lines + Replacements(CSharpAttributeRules(v))
  {
    CSharpUsingsDistinct();
    CSharpRulesStart(v);
    WrittenLinesDiffer(CSharpUsingRules(), 'u', CSharpAttributeRules(v), '[');
    AttributeRulesDistinct(CSharpOpen, CSharpClose(), "]", v);
    ImportsThenAttributes(lines, CSharpUsingRules(), CSharpAttributeRules(v));
  }

  /** Patching a file twice with one (corrected) attribute rule is patching it once, in either mode. */
  lemma CSharpAttributeRulesIdempotent(lines: seq<string>, v: VersionInformation, j: nat)
    requires SingleLine(v) && j < 3
    ensures var r := CSharpAttributeRules(v)[j];
            AppendedOrUpdated(AppendedOrUpdated(lines, r.pattern, r.replacement), r.pattern, r.replacement)
            == AppendedOrUpdated(lines, r.pattern, r.replacement)
            && PatchedLines(PatchedLines(lines, r.pattern, r.replacement), r.pattern, r.replacement)
               == PatchedLines(lines, r.pattern, r.replacement)
  {
    CSharpRulesSelfMatching(v);
    var r := CSharpAttributeRules(v)[j];
    assert r in CSharpAttributeRules(v);
    AppendOrUpdateIdempotent(lines, r.pattern, r.replacement);
    PatchedLinesIdempotent(lines, r.pattern, r.replacement);
  }

  /**
   * As written, the insert mode's informational line ends in "];", which its own pattern
   * rejects: on a file without the attribute, a second run appends a second copy.
   */
  lemma AsWrittenInformationalDuplicates(lines: seq<string>, v: VersionInformation)
    requires MatchCount(lines, CSharpAttributeRules(v)[2].pattern) == 0
    ensures var r := AsWrittenCSharpInsertRules(v)[2];
            !FullMatch(r.pattern, r.replacement)
            && AppendedOrUpdated(AppendedOrUpdated(lines, r.pattern, r.replacement), r.pattern, r.replacement)
               == lines + [r.replacement, r.replacement]
  {
    var r := AsWrittenCSharpInsertRules(v)[2];
    var prefix := [Lit(CSharpOpen), Spaces(false), Lit(AssemblyInformationalVersion), Spaces(false), Lit("("), AnyRun, Lit(")"), Spaces(false)];
    assert r.pattern == prefix + [Lit("]")];
    var line := r.replacement;
    assert line[|line| - 1] == ';';
    if FullMatch(r.pattern, line) {
      FullMatchEnd(prefix, "]", line);
    }
    AppendOrUpdateDuplicates(lines, r.pattern, r.replacement);
  }

  // Visual Basic

  const VbOpen := "<Assembly:"

  function VbClose(): Pattern {
    [Lit(">")]
  }

  lemma VbCloseMatches()
    ensures Matches(VbClose(), ">")
  {
    var e: string := [];
    LitCons(">", [], e);
    assert ">" + e == ">";
  }

  /** Imports System, System.Reflection and System.Runtime.InteropServices, in that order. */
  function VbImportRules(): seq<Rule> {
    [ Rule(ImportPattern("Imports", "System"), ImportLine("Imports", "System")),
      Rule(ImportPattern("Imports", "System.Reflection"), ImportLine("Imports", "System.Reflection")),
      Rule(ImportPattern("Imports", "System.Runtime.InteropServices"), ImportLine("Imports", "System.Runtime.InteropServices")) ]
  }

  function VbAttributeRules(v: VersionInformation): seq<Rule> {
    AttributeRules(VbOpen, VbClose(), ">", v)
  }

  function VbLines(lines: seq<string>, v: VersionInformation, checkImports: bool, insert: bool): seq<string> {
    var imported := if checkImports then InsertAll(lines, VbImportRules()) else lines;
    if insert then AppendAll(imported, VbAttributeRules(v)) else PatchAll(imported, VbAttributeRules(v))
  }

  lemma VbImportsDistinct()
    ensures NoLaterMatch(VbImportRules())
  {
    var r := VbImportRules();
    ImportEndMismatch("Imports", "System.Reflection", r[0].replacement, 0);
    ImportEndMismatch("Imports", "System.Runtime.InteropServices", r[0].replacement, 0);
    ImportEndMismatch("Imports", "System.Runtime.InteropServices", r[1].replacement, 0);
  }

  lemma VbRulesSelfMatching(v: VersionInformation)
    requires SingleLine(v)
    ensures forall r :: r in VbImportRules() ==> SelfMatching(r.pattern, r.replacement)
    ensures forall r :: r in VbAttributeRules(v) ==> SelfMatching(r.pattern, r.replacement)
  {
    ImportTripleSelfMatching("Imports", "System", "System.Reflection", "System.Runtime.InteropServices");
    assert forall r :: r in VbAttributeRules(v) ==> SelfMatching(r.pattern, r.replacement) by {
      VbCloseMatches();
      AttributeRulesSelfMatching(VbOpen, VbClose(), ">", v);
    }
  }

  /** The VB import patterns start with I, the attribute patterns with <; a ' comment matches neither. */
  lemma VbRulesStart(v: VersionInformation)
    ensures AllStartWith(VbImportRules(), 'I') && AllStartWith(VbAttributeRules(v), '<')
  {
    AttributeRulesStart(VbOpen, VbClose(), ">", v);
  }

  lemma VbFreshFile(lines: seq<string>, v: VersionInformation)
    requires NoneMatch(lines, VbImportRules()) && NoneMatch(lines, VbAttributeRules(v))
    ensures VbLines(lines, v, true, true)
         == Reversed(Replacements(VbImportRules())) + lines + Replacements(VbAttributeRules(v))
  {
    VbImportsDistinct();
    VbRulesStart(v);
    WrittenLinesDiffer(VbImportRules(), 'I', VbAttributeRules(v), '<');
    AttributeRulesDistinct(VbOpen, VbClose(), ">", v);
    ImportsThenAttributes(lines, VbImportRules(), VbAttributeRules(v));
  }

  // C++/CLI

  function CppUsingPattern(target: string): Pattern {
    [Lit("using"), Spaces(true), Lit("namespace"), Spaces(true), Lit(target), Spaces(false), Lit(";")]
  }

  function CppUsingLine(target: string): string {
    "using namespace " + target + ";"
  }

  /** The namespace and the closing ;, with nothing between them. */
  lemma CppTargetMatches(target: string)
    ensures Matches([Lit(target), Spaces(false), Lit(";")], target + ";")
  {
    var e: string := [];
    LitCons(";", [], e);
    assert ";" + e == ";";
    SpacesCons(false, [Lit(";")], e, ";");
    assert e + ";" == ";";
    LitCons(target, [Spaces(false), Lit(";")], ";");
  }

  /** "namespace", a space, the namespace and the closing ;. */
  lemma CppNamespaceMatches(target: string)
    ensures Matches([Lit("namespace"), Spaces(true), Lit(target), Spaces(false), Lit(";")], "namespace" + (" " + (target + ";")))
  {
    var p3 := [Lit(target), Spaces(false), Lit(";")];
    var s3 := target + ";";
    CppTargetMatches(target);
    SpacesCons(true, p3, " ", s3);
    LitCons("namespace", [Spaces(true)] + p3, " " + s3);
    assert [Lit("namespace")] + ([Spaces(true)] + p3) == [Lit("namespace"), Spaces(true), Lit(target), Spaces(false), Lit(";")];
  }

  lemma CppUsingSelfMatching(target: string)
    ensures SelfMatching(CppUsingPattern(target), CppUsingLine(target))
  {
    var p1 := [Lit("namespace"), Spaces(true), Lit(target), Spaces(false), Lit(";")];
    var s1 := "namespace" + (" " + (target + ";"));
    CppNamespaceMatches(target);
    SpacesCons(true, p1, " ", s1);
    LitCons("using", [Spaces(true)] + p1, " " + s1);
    assert [Lit("using")] + ([Spaces(true)] + p1) == CppUsingPattern(target);
    assert "using" + (" " + s1) == CppUsingLine(target);
    FullMatchOfMatch(CppUsingPattern(target), CppUsingLine(target));
  }

  lemma CppUsingMinLength(target: string)
    ensures MinLength(CppUsingPattern(target)) == |target| + 17
  {
    var p := CppUsingPattern(target);
    assert p[6..][1..] == [];
    assert p[5..][1..] == p[6..];
    assert p[4..][1..] == p[5..];
    assert p[3..][1..] == p[4..];
    assert p[2..][1..] == p[3..];
    assert p[1..][1..] == p[2..];
    assert MinLength(p[6..]) == 1;
    assert MinLength(p[5..]) == 1;
    assert MinLength(p[4..]) == |target| + 1;
    assert MinLength(p[3..]) == |target| + 2;
    assert MinLength(p[2..]) == |target| + 11;
    assert MinLength(p[1..]) == |target| + 12;
  }

  function CppUsingRules(): seq<Rule> {
    [ Rule(CppUsingPattern("System::Reflection"), CppUsingLine("System::Reflection")),
      Rule(CppUsingPattern("System::Runtime::InteropServices"), CppUsingLine("System::Runtime::InteropServices")) ]
  }

  function CppClose(): Pattern {
    [Lit("]"), Spaces(false), Lit(";")]
  }

  lemma CppCloseMatches()
    ensures Matches(CppClose(), "];")
  {
    var e: string := [];
    LitCons(";", [], e);
    assert ";" + e == ";";
    SpacesCons(false, [Lit(";")], e, ";");
    assert e + ";" == ";";
    LitCons("]", [Spaces(false), Lit(";")], ";");
    assert "]" + ";" == "];";
  }

  function CppAttributeRules(v: VersionInformation): seq<Rule> {
    AttributeRules(CSharpOpen, CppClose(), "];", v)
  }

  function CppLines(lines: seq<string>, v: VersionInformation, checkUsings: bool, insert: bool): seq<string> {
    var imported := if checkUsings then InsertAll(lines, CppUsingRules()) else lines;
    if insert then AppendAll(imported, CppAttributeRules(v)) else PatchAll(imported, CppAttributeRules(v))
  }

  lemma CppUsingsDistinct()
    ensures NoLaterMatch(CppUsingRules())
  {
    var r := CppUsingRules();
    if FullMatch(r[1].pattern, r[0].replacement) {
      FullMatchMinLength(r[1].pattern, r[0].replacement);
      CppUsingMinLength("System::Runtime::InteropServices");
    }
  }

  lemma CppRulesSelfMatching(v: VersionInformation)
    requires SingleLine(v)
    ensures forall r :: r in CppUsingRules() ==> SelfMatching(r.pattern, r.replacement)
    ensures forall r :: r in CppAttributeRules(v) ==> SelfMatching(r.pattern, r.replacement)
  {
    CppUsingSelfMatching("System::Reflection");
    CppUsingSelfMatching("System::Runtime::InteropServices");
    CppCloseMatches();
    AttributeRulesSelfMatching(CSharpOpen, CppClose(), "];", v);
  }

  lemma CppRulesStart(v: VersionInformation)
    ensures AllStartWith(CppUsingRules(), 'u') && AllStartWith(CppAttributeRules(v), '[')
  {
    AttributeRulesStart(CSharpOpen, CppClose(), "];", v);
  }

  lemma CppFreshFile(lines: seq<string>, v: VersionInformation)
    requires NoneMatch(lines, CppUsingRules()) && NoneMatch(lines, CppAttributeRules(v))
    ensures CppLines(lines, v, true, true)
         == Reversed(Replacements(CppUsingRules())) + lines + Replacements(CppAttributeRules(v))
  {
    CppUsingsDistinct();
    CppRulesStart(v);
    WrittenLinesDiffer(CppUsingRules(), 'u', CppAttributeRules(v), '[');
    AttributeRulesDistinct(CSharpOpen, CppClose(), "];", v);
    ImportsThenAttributes(lines, CppUsingRules(), CppAttributeRules(v));
  }

  // Text files: Version\s*=.* becomes "Version = " and the version

  /** A key, \s*, = and the rest of the line. */
  function AssignmentPattern(key: string): Pattern {
    [Lit(key), Spaces(false), Lit("="), AnyRun]
  }

  function AssignmentLine(key: string, value: string): string {
    key + " = " + value
  }

  lemma AssignedValueMatches(value: string)
    requires '\n' !in value
    ensures Matches([Lit("="), AnyRun], "= " + value)
  {
    var s := " " + value;
    var e: string := [];
    MatchesEmpty();
    AnyCons([], s, e);
    assert s + e == s && [AnyRun] + [] == [AnyRun];
    LitCons("=", [AnyRun], s);
    assert "=" + s == "= " + value;
  }

  lemma AssignmentMatches(key: string, value: string)
    requires '\n' !in value
    ensures Matches(AssignmentPattern(key), AssignmentLine(key, value))
  {
    var s := "= " + value;
    var p := [Lit("="), AnyRun];
    AssignedValueMatches(value);
    SpacesCons(false, p, " ", s);
    var q := [Spaces(false)] + p;
    LitCons(key, q, " " + s);
    assert key + (" " + s) == AssignmentLine(key, value);
    assert [Lit(key)] + q == AssignmentPattern(key);
  }

  lemma AssignmentSelfMatching(key: string, value: string)
    requires key != [] && !IsWhite(key[0]) && '\n' !in value
    ensures SelfMatching(AssignmentPattern(key), AssignmentLine(key, value))
  {
    AssignmentMatches(key, value);
    FullMatchOfMatch(AssignmentPattern(key), AssignmentLine(key, value));
    assert AssignmentLine(key, value)[0] == key[0];
  }

  /** After the key, \s* can take nothing from a visible character, so = must come next. */
  lemma AssignmentNeedsEquals(key: string, c: string)
    requires key != [] && !IsWhite(key[0]) && c != [] && !IsWhite(c[0]) && c[0] != '='
    ensures !FullMatch(AssignmentPattern(key), key + c)
  {
    var line := key + c;
    var anchored := Anchored(AssignmentPattern(key));
    assert anchored[0] == Lit(key);
    assert anchored[1..] == [Spaces(false), Lit("="), AnyRun, Spaces(false)];
    assert line[0] == key[0];
    if FullMatch(AssignmentPattern(key), line) {
      FullMatchStart(AssignmentPattern(key), line);
      LeadingWhiteAt(line, 0);
      assert line[0..] == line;
      var k := HeadLength(Lit(key), anchored[1..], line);
      assert line[k..] == c;
      var tail := anchored[1..];
      assert tail[0] == Spaces(false) && tail[1..] == [Lit("="), AnyRun, Spaces(false)];
      var m := HeadLength(Spaces(false), tail[1..], c);
    }
  }

  const VersionKey := "Version"

  function TextPattern(): Pattern {
    AssignmentPattern(VersionKey)
  }

  function TextLine(v: VersionInformation): string {
    AssignmentLine(VersionKey, ToString(v))
  }

  function TextLines(lines: seq<string>, v: VersionInformation): seq<string> {
    AppendedOrUpdated(lines, TextPattern(), TextLine(v))
  }

  /** Patching a text file twice is patching it once. */
  lemma TextLinesIdempotent(lines: seq<string>, v: VersionInformation)
    requires SingleLine(v)
    ensures TextLines(TextLines(lines, v), v) == TextLines(lines, v)
  {
    ToStringSingleLine(v);
    AssignmentSelfMatching(VersionKey, ToString(v));
    AppendOrUpdateIdempotent(lines, TextPattern(), TextLine(v));
  }

  /**
   * A line that continues "Version" with a visible character other than = (VersionMajor = 2,
   * say) is not a Version line, so the text patcher leaves it alone.
   */
  lemma TextNeedsEquals(c: string)
    requires c != [] && !IsWhite(c[0]) && c[0] != '='
    ensures !FullMatch(TextPattern(), VersionKey + c)
    ensures PatchLine(TextPattern(), TextLine(Zero()), VersionKey + c) == VersionKey + c
  {
    AssignmentNeedsEquals(VersionKey, c);
  }
}
