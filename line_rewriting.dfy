/**
 * The three line-list primitives the attribute and text patchers are built from:
 * patch every fully matching line, append the replacement when nothing matched,
 * and insert it at the top when nothing matched.
 */
module LineRewriting {
  import opened Text
  import opened LinePatterns

  /** How many lines fully match p. */
  function MatchCount(lines: seq<string>, p: Pattern): (n: nat)
    ensures n <= |lines|
  {
    if lines == [] then 0
    else MatchCount(lines[..|lines| - 1], p) + (if FullMatch(p, lines[|lines| - 1]) then 1 else 0)
  }

  /** Every line rewritten by PatchLine, in place. */
  function PatchedLines(lines: seq<string>, p: Pattern, replacement: string): seq<string> {
    seq(|lines|, i requires 0 <= i < |lines| => PatchLine(p, replacement, lines[i]))
  }

  /** AppendOrUpdateRegexString on a list of lines. */
  function AppendedOrUpdated(lines: seq<string>, p: Pattern, replacement: string): seq<string> {
    if MatchCount(lines, p) == 0 then lines + [replacement] else PatchedLines(lines, p, replacement)
  }

  /** InsertOrUpdateRegexString on a list of lines. */
  function InsertedOrUpdated(lines: seq<string>, p: Pattern, replacement: string): seq<string> {
    if MatchCount(lines, p) == 0 then [replacement] + lines else PatchedLines(lines, p, replacement)
  }

  /** The mutable list of lines a patcher reads a file into. */
  class LineList {
    var lines: seq<string>

    constructor (initial: seq<string>)
      ensures lines == initial
    {
      lines := initial;
    }

    /** PatchLinesIfRegexMatches: rewrites each fully matching line and counts them. */
    method PatchLinesIfMatches(p: Pattern, replacement: string) returns (replacements: nat)
      modifies this
      ensures lines == PatchedLines(old(lines), p, replacement)
      ensures replacements == MatchCount(old(lines), p)
    {
      replacements := 0;
      var i := 0;
      while i < |lines|
        invariant 0 <= i <= |lines| == |old(lines)|
        invariant forall j :: 0 <= j < i ==> lines[j] == PatchLine(p, replacement, old(lines)[j])
        invariant forall j :: i <= j < |lines| ==> lines[j] == old(lines)[j]
        invariant replacements == MatchCount(old(lines)[..i], p)
      {
        assert old(lines)[..i + 1][..i] == old(lines)[..i];
        if FullMatch(p, lines[i]) {
          lines := lines[i := RegexReplace(p, lines[i], replacement)];
          replacements := replacements + 1;
        }
        i := i + 1;
      }
      assert old(lines)[..i] == old(lines);
    }

    /** AppendOrUpdateRegexString. */
    method AppendOrUpdate(p: Pattern, replacement: string)
      modifies this
      ensures lines == AppendedOrUpdated(old(lines), p, replacement)
    {
      var n := PatchLinesIfMatches(p, replacement);
      if n == 0 {
        NoMatchUnchanged(old(lines), p, replacement);
        lines := lines + [replacement];
      }
    }

    /** InsertOrUpdateRegexString: on no match the list is cleared and refilled behind the replacement. */
    method InsertOrUpdate(p: Pattern, replacement: string)
      modifies this
      ensures lines == InsertedOrUpdated(old(lines), p, replacement)
    {
      var n := PatchLinesIfMatches(p, replacement);
      if n == 0 {
        NoMatchUnchanged(old(lines), p, replacement);
        var items := lines;
        lines := [];
        lines := lines + [replacement];
        var j := 0;
        while j < |items|
          invariant 0 <= j <= |items|
          invariant lines == [replacement] + items[..j]
        {
          assert items[..j + 1] == items[..j] + [items[j]];
          lines := lines + [items[j]];
          j := j + 1;
        }
        assert items[..j] == items;
      }
    }
  }

  /** No line matches exactly when the count is 0. */
  lemma {:induction false} MatchCountZero(lines: seq<string>, p: Pattern)
    ensures MatchCount(lines, p) == 0 <==> forall i :: 0 <= i < |lines| ==> !FullMatch(p, lines[i])
  {
    if lines != [] {
      var init := lines[..|lines| - 1];
      MatchCountZero(init, p);
      assert forall i :: 0 <= i < |init| ==> init[i] == lines[i];
    }
  }

  /** Counting over an appended line. */
  lemma MatchCountSnoc(lines: seq<string>, x: string, p: Pattern)
    ensures MatchCount(lines + [x], p) == MatchCount(lines, p) + (if FullMatch(p, x) then 1 else 0)
  {
    assert (lines + [x])[..|lines|] == lines;
  }

  /** With nothing matching, patching changes nothing. */
  lemma NoMatchUnchanged(lines: seq<string>, p: Pattern, replacement: string)
    requires MatchCount(lines, p) == 0
    ensures PatchedLines(lines, p, replacement) == lines
  {
    MatchCountZero(lines, p);
  }

  /**
   * For a pattern starting with text, patching keeps the number of lines, turns a
   * matching line into its indentation followed by the replacement, and keeps every
   * other line verbatim.
   */
  lemma PatchedLinesShape(lines: seq<string>, p: Pattern, replacement: string)
    requires StartsWithText(p)
    ensures |PatchedLines(lines, p, replacement)| == |lines|
    ensures forall i :: 0 <= i < |lines| ==>
              PatchedLines(lines, p, replacement)[i]
              == if FullMatch(p, lines[i]) then lines[i][..LeadingWhite(lines[i])] + replacement else lines[i]
  {
    forall i | 0 <= i < |lines| && FullMatch(p, lines[i]) {
      ReplaceKeepsIndent(p, lines[i], replacement);
    }
  }

  /** A replacement that matches its own pattern and starts with text is a fixed point of PatchLine. */
  predicate SelfMatching(p: Pattern, replacement: string) {
    StartsWithText(p) && FullMatch(p, replacement) && replacement != [] && !IsWhite(replacement[0])
  }

  /** Under a self-matching replacement a patched line still matches and patches to itself. */
  lemma PatchLineStable(p: Pattern, replacement: string, line: string)
    requires SelfMatching(p, replacement)
    ensures FullMatch(p, line) ==> FullMatch(p, PatchLine(p, replacement, line))
    ensures PatchLine(p, replacement, PatchLine(p, replacement, line)) == PatchLine(p, replacement, line)
  {
    if FullMatch(p, line) {
      ReplaceKeepsIndent(p, line, replacement);
      var w := line[..LeadingWhite(line)];
      var x := w + replacement;
      FullMatchIndented(p, w, replacement);
      ReplaceKeepsIndent(p, x, replacement);
      assert x[..|w|] == w;
      assert x[|w|] == replacement[0];
      LeadingWhiteAt(x, |w|);
    }
  }

  /** Patching twice with a self-matching replacement is patching once. */
  lemma PatchedLinesIdempotent(lines: seq<string>, p: Pattern, replacement: string)
    requires SelfMatching(p, replacement)
    ensures PatchedLines(PatchedLines(lines, p, replacement), p, replacement) == PatchedLines(lines, p, replacement)
  {
    var once := PatchedLines(lines, p, replacement);
    var twice := PatchedLines(once, p, replacement);
    forall i | 0 <= i < |lines|
      ensures twice[i] == once[i]
    {
      PatchLineStable(p, replacement, lines[i]);
    }
  }

  /** Under a self-matching replacement, a list with a matching line still has one after patching. */
  lemma PatchedLinesKeepMatching(lines: seq<string>, p: Pattern, replacement: string)
    requires SelfMatching(p, replacement)
    ensures MatchCount(lines, p) > 0 ==> MatchCount(PatchedLines(lines, p, replacement), p) > 0
  {
    if MatchCount(lines, p) > 0 {
      MatchCountZero(lines, p);
      var i :| 0 <= i < |lines| && FullMatch(p, lines[i]);
      PatchLineStable(p, replacement, lines[i]);
      var once := PatchedLines(lines, p, replacement);
      assert FullMatch(p, once[i]);
      MatchCountZero(once, p);
    }
  }

  /** A replacement matches itself as a line of its own. */
  lemma SelfMatchingLine(p: Pattern, replacement: string)
    requires SelfMatching(p, replacement)
    ensures PatchLine(p, replacement, replacement) == replacement
  {
    ReplaceKeepsIndent(p, replacement, replacement);
    LeadingWhiteAt(replacement, 0);
  }

  /** AppendOrUpdate is idempotent when the replacement line matches its own pattern. */
  lemma AppendOrUpdateIdempotent(lines: seq<string>, p: Pattern, replacement: string)
    requires SelfMatching(p, replacement)
    ensures AppendedOrUpdated(AppendedOrUpdated(lines, p, replacement), p, replacement)
         == AppendedOrUpdated(lines, p, replacement)
  {
    PatchedLinesIdempotent(lines, p, replacement);
    PatchedLinesKeepMatching(lines, p, replacement);
    if MatchCount(lines, p) == 0 {
      var once := lines + [replacement];
      MatchCountSnoc(lines, replacement, p);
      MatchCountZero(lines, p);
      SelfMatchingLine(p, replacement);
    }
  }

  /** InsertOrUpdate is idempotent when the replacement line matches its own pattern. */
  lemma InsertOrUpdateIdempotent(lines: seq<string>, p: Pattern, replacement: string)
    requires SelfMatching(p, replacement)
    ensures InsertedOrUpdated(InsertedOrUpdated(lines, p, replacement), p, replacement)
         == InsertedOrUpdated(lines, p, replacement)
  {
    PatchedLinesIdempotent(lines, p, replacement);
    PatchedLinesKeepMatching(lines, p, replacement);
    if MatchCount(lines, p) == 0 {
      var once := [replacement] + lines;
      MatchCountZero(lines, p);
      MatchCountZero(once, p);
      assert once[0] == replacement;
      SelfMatchingLine(p, replacement);
      assert forall i :: 1 <= i < |once| ==> once[i] == lines[i - 1];
    }
  }

  /**
   * A replacement its own pattern rejects is appended again on every run: two runs over
   * lines where nothing matches leave two copies at the end.
   */
  lemma AppendOrUpdateDuplicates(lines: seq<string>, p: Pattern, replacement: string)
    requires MatchCount(lines, p) == 0 && !FullMatch(p, replacement)
    ensures AppendedOrUpdated(AppendedOrUpdated(lines, p, replacement), p, replacement)
         == lines + [replacement, replacement]
  {
    MatchCountSnoc(lines, replacement, p);
  }

  /** With nothing matching, appending adds the replacement last and inserting adds it first. */
  lemma NoMatchPlacement(lines: seq<string>, p: Pattern, replacement: string)
    requires forall i :: 0 <= i < |lines| ==> !FullMatch(p, lines[i])
    ensures AppendedOrUpdated(lines, p, replacement) == lines + [replacement]
    ensures InsertedOrUpdated(lines, p, replacement) == [replacement] + lines
  {
    MatchCountZero(lines, p);
  }

  // A patcher's run of calls, one rule (pattern and replacement) at a time, in order

  datatype Rule = Rule(pattern: Pattern, replacement: string)

  function Replacements(rules: seq<Rule>): (r: seq<string>)
    ensures |r| == |rules| && forall i :: 0 <= i < |rules| ==> r[i] == rules[i].replacement
  {
    if rules == [] then [] else [rules[0].replacement] + Replacements(rules[1..])
  }

  function Reversed(s: seq<string>): (r: seq<string>)
    ensures |r| == |s| && forall i :: 0 <= i < |s| ==> r[i] == s[|s| - 1 - i]
  {
    if s == [] then [] else Reversed(s[1..]) + [s[0]]
  }

  /** PatchLinesIfRegexMatches with each rule in turn. */
  function PatchAll(lines: seq<string>, rules: seq<Rule>): seq<string>
    decreases |rules|
  {
    if rules == [] then lines
    else PatchAll(PatchedLines(lines, rules[0].pattern, rules[0].replacement), rules[1..])
  }

  /** AppendOrUpdateRegexString with each rule in turn. */
  function AppendAll(lines: seq<string>, rules: seq<Rule>): seq<string>
    decreases |rules|
  {
    if rules == [] then lines
    else AppendAll(AppendedOrUpdated(lines, rules[0].pattern, rules[0].replacement), rules[1..])
  }

  /** InsertOrUpdateRegexString with each rule in turn. */
  function InsertAll(lines: seq<string>, rules: seq<Rule>): seq<string>
    decreases |rules|
  {
    if rules == [] then lines
    else InsertAll(InsertedOrUpdated(lines, rules[0].pattern, rules[0].replacement), rules[1..])
  }

  /** No line matches the pattern of any rule. */
  predicate NoneMatch(lines: seq<string>, rules: seq<Rule>) {
    forall i, j :: 0 <= i < |lines| && 0 <= j < |rules| ==> !FullMatch(rules[j].pattern, lines[i])
  }

  /** No rule's replacement matches the pattern of a later rule. */
  predicate NoLaterMatch(rules: seq<Rule>) {
    forall i, j :: 0 <= i < j < |rules| ==> !FullMatch(rules[j].pattern, rules[i].replacement)
  }

  lemma NoLaterMatchTail(rules: seq<Rule>)
    requires rules != [] && NoLaterMatch(rules)
    ensures NoLaterMatch(rules[1..])
  {
    forall i, j | 0 <= i < j < |rules| - 1
      ensures !FullMatch(rules[1..][j].pattern, rules[1..][i].replacement)
    {
      assert rules[1..][j] == rules[j + 1] && rules[1..][i] == rules[i + 1];
    }
  }

  lemma NoneMatchTail(lines: seq<string>, rules: seq<Rule>)
    requires rules != [] && NoneMatch(lines, rules)
    ensures NoneMatch(lines, rules[1..])
  {
    forall i, j | 0 <= i < |lines| && 0 <= j < |rules| - 1
      ensures !FullMatch(rules[1..][j].pattern, lines[i])
    {
      assert rules[1..][j] == rules[j + 1];
    }
  }

  /** A line no later pattern matches can join the lines on either side. */
  lemma NoneMatchExtend(lines: seq<string>, rules: seq<Rule>)
    requires rules != [] && NoneMatch(lines, rules) && NoLaterMatch(rules)
    ensures NoneMatch(lines + [rules[0].replacement], rules[1..])
    ensures NoneMatch([rules[0].replacement] + lines, rules[1..])
  {
    var x := rules[0].replacement;
    var tail := rules[1..];
    NoneMatchTail(lines, rules);
    forall j | 0 <= j < |tail|
      ensures !FullMatch(tail[j].pattern, x)
    {
      assert tail[j] == rules[j + 1];
    }
    var after := lines + [x];
    var before := [x] + lines;
    assert forall i :: 0 <= i < |lines| ==> after[i] == lines[i] && before[i + 1] == lines[i];
    assert after[|lines|] == x && before[0] == x;
  }

  lemma NoneMatchConcat(a: seq<string>, b: seq<string>, rules: seq<Rule>)
    requires NoneMatch(a, rules) && NoneMatch(b, rules)
    ensures NoneMatch(a + b, rules)
  {
    var ab := a + b;
    assert forall i :: 0 <= i < |ab| ==> ab[i] == if i < |a| then a[i] else b[i - |a|];
  }

  /** When nothing patches, the whole run changes nothing. */
  lemma {:induction false} PatchAllNoMatch(lines: seq<string>, rules: seq<Rule>)
    requires NoneMatch(lines, rules)
    ensures PatchAll(lines, rules) == lines
    decreases |rules|
  {
    if rules != [] {
      MatchCountZero(lines, rules[0].pattern);
      NoMatchUnchanged(lines, rules[0].pattern, rules[0].replacement);
      NoneMatchTail(lines, rules);
      PatchAllNoMatch(lines, rules[1..]);
    }
  }

  lemma AppendFirst(lines: seq<string>, rules: seq<Rule>) returns (next: seq<string>)
    requires rules != [] && NoneMatch(lines, rules)
    ensures next == lines + [rules[0].replacement]
    ensures AppendAll(lines, rules) == AppendAll(next, rules[1..])
  {
    var r := rules[0];
    assert forall i :: 0 <= i < |lines| ==> !FullMatch(r.pattern, lines[i]);
    NoMatchPlacement(lines, r.pattern, r.replacement);
    next := lines + [r.replacement];
  }

  /** Appending the first rule's replacement, then the others', appends all the replacements. */
  lemma AppendReplacementsCons(lines: seq<string>, rules: seq<Rule>)
    requires rules != []
    ensures (lines + [rules[0].replacement]) + Replacements(rules[1..]) == lines + Replacements(rules)
  {
    assert Replacements(rules) == [rules[0].replacement] + Replacements(rules[1..]);
  }

  /** Inserting the first rule's replacement, then the others' in reverse, inserts all of them in reverse. */
  lemma InsertReplacementsCons(lines: seq<string>, rules: seq<Rule>)
    requires rules != []
    ensures Reversed(Replacements(rules[1..])) + ([rules[0].replacement] + lines) == Reversed(Replacements(rules)) + lines
  {
    var reps := Replacements(rules);
    var x := rules[0].replacement;
    var front := Reversed(Replacements(rules[1..]));
    assert Reversed(reps) == front + [x] by {
      assert reps == [x] + Replacements(rules[1..]);
      assert reps[1..] == Replacements(rules[1..]);
    }
  }

  /**
   * When no line matches and no replacement matches a later pattern, every rule
   * appends its replacement: they end up at the bottom in the order of the rules.
   */
  lemma {:induction false} AppendAllFresh(lines: seq<string>, rules: seq<Rule>)
    requires NoneMatch(lines, rules) && NoLaterMatch(rules)
    ensures AppendAll(lines, rules) == lines + Replacements(rules)
    decreases |rules|
  {
    if rules != [] {
      var r := rules[0];
      var next := AppendFirst(lines, rules);
      NoneMatchExtend(lines, rules);
      NoLaterMatchTail(rules);
      AppendAllFresh(next, rules[1..]);
      AppendReplacementsCons(lines, rules);
    }
  }

  /**
   * Under the same conditions, every rule inserts its replacement at the top: they end
   * up first, in the reverse order of the rules.
   */
  lemma {:induction false} InsertAllFresh(lines: seq<string>, rules: seq<Rule>)
    requires NoneMatch(lines, rules) && NoLaterMatch(rules)
    ensures InsertAll(lines, rules) == Reversed(Replacements(rules)) + lines
    decreases |rules|
  {
    if rules != [] {
      var r := rules[0];
      assert forall i :: 0 <= i < |lines| ==> !FullMatch(r.pattern, lines[i]);
      NoMatchPlacement(lines, r.pattern, r.replacement);
      NoneMatchExtend(lines, rules);
      NoLaterMatchTail(rules);
      InsertAllFresh([r.replacement] + lines, rules[1..]);
      InsertReplacementsCons(lines, rules);
    }
  }
}
