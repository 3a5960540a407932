/**
 * The line patterns the patchers hand to the regular-expression engine, as a
 * small token language: literal text (compared case-insensitively), runs of
 * whitespace (`\s*`, `\s+`) and `.*` (any run of characters other than a line
 * feed). A line is patched when its whole content, give or take surrounding
 * whitespace, matches the pattern; the match is then replaced from its start
 * to the end of the line.
 */
module LinePatterns {
  import opened Wrappers
  import opened Text

  datatype Token =
    | Lit(text: string)          // literal text, case-insensitive
    | Spaces(atLeastOne: bool)   // \s+ when atLeastOne, else \s*
    | AnyRun                     // .*

  type Pattern = seq<Token>

  /** The whole of s matches the token sequence p. */
  predicate Matches(p: Pattern, s: string)
    decreases |p|, 1
  {
    if p == [] then s == [] else MatchesFrom(p[0], p[1..], s)
  }

  /** s starts with a match of t and the rest of s matches rest. */
  predicate MatchesFrom(t: Token, rest: Pattern, s: string)
    decreases |rest| + 1, 0
  {
    match t
    case Lit(l) => |l| <= |s| && EqualsIgnoreCase(s[..|l|], l) && Matches(rest, s[|l|..])
    case Spaces(atLeastOne) =>
      exists k :: (if atLeastOne then 1 else 0) <= k <= |s| && IsBlank(s[..k]) && Matches(rest, s[k..])
    case AnyRun => exists k :: 0 <= k <= |s| && '\n' !in s[..k] && Matches(rest, s[k..])
  }

  /** Regex.IsMatch(line, "^\s*" + p + "\s*$") with RegexOptions.IgnoreCase. */
  predicate FullMatch(p: Pattern, line: string) {
    MatchesFrom(Spaces(false), Anchored(p), line)
  }

  /** The pattern p + "\s*$" that Regex.Replace looks for. */
  function Anchored(p: Pattern): Pattern {
    p + [Spaces(false)]
  }

  /** The leftmost position at or after k where p + "\s*$" matches the rest of the line. */
  function FirstMatchFrom(p: Pattern, line: string, k: nat): (r: Option<nat>)
    requires k <= |line|
    ensures r.Some? ==> k <= r.value <= |line| && Matches(Anchored(p), line[r.value..])
    ensures r.Some? ==> forall j :: k <= j < r.value ==> !Matches(Anchored(p), line[j..])
    ensures r.None? ==> forall j :: k <= j <= |line| ==> !Matches(Anchored(p), line[j..])
    decreases |line| - k
  {
    if Matches(Anchored(p), line[k..]) then Some(k)
    else if k == |line| then None
    else FirstMatchFrom(p, line, k + 1)
  }

  /**
   * Regex.Replace(line, p + "\s*$", replacement): the leftmost match runs to the
   * end of the line, so it is the only one, and everything from its start on is
   * replaced. The replacement is taken literally.
   */
  function RegexReplace(p: Pattern, line: string, replacement: string): string {
    match FirstMatchFrom(p, line, 0)
    case None => line
    case Some(k) => line[..k] + replacement
  }

  /** The rewrite applied to one line: only a line that fully matches is replaced. */
  function PatchLine(p: Pattern, replacement: string, line: string): string {
    if FullMatch(p, line) then RegexReplace(p, line, replacement) else line
  }

  /** A pattern whose first token is a literal starting with a non-whitespace character. */
  predicate StartsWithText(p: Pattern) {
    |p| > 0 && p[0].Lit? && |p[0].text| > 0 && !IsWhite(p[0].text[0])
  }

  // Building matches token by token

  lemma MatchesEmpty()
    ensures Matches([], [])
  {
  }

  lemma LitCons(l: string, p: Pattern, b: string)
    requires Matches(p, b)
    ensures Matches([Lit(l)] + p, l + b)
  {
    var s := l + b;
    assert s[..|l|] == l;
    assert s[|l|..] == b;
    assert ([Lit(l)] + p)[1..] == p;
  }

  lemma SpacesCons(atLeastOne: bool, p: Pattern, w: string, b: string)
    requires IsBlank(w) && (atLeastOne ==> |w| >= 1)
    requires Matches(p, b)
    ensures Matches([Spaces(atLeastOne)] + p, w + b)
  {
    var s := w + b;
    assert s[..|w|] == w;
    assert s[|w|..] == b;
    assert ([Spaces(atLeastOne)] + p)[1..] == p;
  }

  lemma AnyCons(p: Pattern, x: string, b: string)
    requires '\n' !in x
    requires Matches(p, b)
    ensures Matches([AnyRun] + p, x + b)
  {
    var s := x + b;
    assert s[..|x|] == x;
    assert s[|x|..] == b;
    assert ([AnyRun] + p)[1..] == p;
  }

  /** A match of p stays a full match of p. */
  lemma FullMatchOfMatch(p: Pattern, s: string)
    requires Matches(p, s)
    ensures FullMatch(p, s)
  {
    MatchesEmpty();
    SpacesCons(false, [], [], []);
    assert [Spaces(false)] + [] == [Spaces(false)];
    var e: string := [];
    MatchesAppend(p, [Spaces(false)], s, e);
    assert s + e == s;
    assert s[..0] == e && s[0..] == s;
    HeadClose(Spaces(false), Anchored(p), s, 0);
  }

  /** Matches of two patterns concatenate. */
  lemma {:induction false} MatchesAppend(p: Pattern, q: Pattern, a: string, b: string)
    requires Matches(p, a) && Matches(q, b)
    ensures Matches(p + q, a + b)
    decreases |p|
  {
    if p == [] {
      assert p + q == q;
      assert a + b == b;
    } else {
      var rest := p[1..];
      assert (p + q)[0] == p[0] && (p + q)[1..] == rest + q;
      var k := HeadLength(p[0], rest, a);
      MatchesAppend(rest, q, a[k..], b);
      HeadExtend(p[0], rest + q, a, k, b);
    }
  }

  /** The length of the part of s that a witness for the first token covers. */
  lemma HeadLength(t: Token, rest: Pattern, s: string) returns (k: nat)
    requires MatchesFrom(t, rest, s)
    ensures k <= |s| && HeadAccepts(t, s[..k]) && Matches(rest, s[k..])
  {
    match t
    case Lit(l) => k := |l|;
    case Spaces(atLeastOne) =>
      k :| (if atLeastOne then 1 else 0) <= k <= |s| && IsBlank(s[..k]) && Matches(rest, s[k..]);
    case AnyRun =>
      k :| 0 <= k <= |s| && '\n' !in s[..k] && Matches(rest, s[k..]);
  }

  /** The text one token accepts by itself. */
  predicate HeadAccepts(t: Token, x: string) {
    match t
    case Lit(l) => EqualsIgnoreCase(x, l)
    case Spaces(atLeastOne) => (atLeastOne ==> |x| >= 1) && IsBlank(x)
    case AnyRun => '\n' !in x
  }

  /** A token's own text followed by a match of the rest, with more text after it. */
  lemma HeadExtend(t: Token, rest: Pattern, a: string, k: nat, b: string)
    requires k <= |a| && HeadAccepts(t, a[..k]) && Matches(rest, a[k..] + b)
    ensures MatchesFrom(t, rest, a + b)
  {
    var s := a + b;
    assert s[..k] == a[..k];
    assert s[k..] == a[k..] + b;
  }

  /** A token's own text followed by a match of the rest. */
  lemma HeadClose(t: Token, rest: Pattern, a: string, k: nat)
    requires k <= |a| && HeadAccepts(t, a[..k]) && Matches(rest, a[k..])
    ensures MatchesFrom(t, rest, a)
  {
    var e: string := [];
    assert a[k..] + e == a[k..];
    HeadExtend(t, rest, a, k, e);
    assert a + e == a;
  }

  /** A literal token accepts any case-insensitively equal text. */
  lemma LitConsIgnoringCase(t: string, l: string, p: Pattern, b: string)
    requires EqualsIgnoreCase(t, l)
    requires Matches(p, b)
    ensures Matches([Lit(l)] + p, t + b)
  {
    var s := t + b;
    assert s[..|l|] == t;
    assert s[|l|..] == b;
    assert ([Lit(l)] + p)[1..] == p;
  }

  /** Conversely, a match of a concatenation splits into matches of the two parts. */
  lemma {:induction false} MatchesSplit(p: Pattern, q: Pattern, s: string) returns (k: nat)
    requires Matches(p + q, s)
    ensures k <= |s| && Matches(p, s[..k]) && Matches(q, s[k..])
    decreases |p|
  {
    if p == [] {
      assert p + q == q;
      k := 0;
      assert s[..0] == [];
      assert s[0..] == s;
    } else {
      var rest := p[1..];
      assert (p + q)[0] == p[0] && (p + q)[1..] == rest + q;
      var j := HeadLength(p[0], rest + q, s);
      var k' := MatchesSplit(rest, q, s[j..]);
      k := j + k';
      assert s[..k][..j] == s[..j];
      assert s[..k][j..] == s[j..][..k'];
      assert s[k..] == s[j..][k'..];
      HeadClose(p[0], rest, s[..k], j);
    }
  }

  /** What a lone \s* accepts. */
  lemma SpacesAlone(w: string)
    requires Matches([Spaces(false)], w)
    ensures IsBlank(w)
  {
    var k := HeadLength(Spaces(false), [], w);
    assert w[k..] == [];
    assert w == w[..k];
  }

  /**
   * A full match of a pattern that starts with text begins right after the
   * line's leading whitespace, and the first visible character agrees with the text.
   */
  lemma FullMatchStart(p: Pattern, line: string)
    requires StartsWithText(p) && FullMatch(p, line)
    ensures LeadingWhite(line) < |line|
    ensures ToLower(line[LeadingWhite(line)]) == ToLower(p[0].text[0])
    ensures Matches(Anchored(p), line[LeadingWhite(line)..])
  {
    var k := HeadLength(Spaces(false), Anchored(p), line);
    var l := p[0].text;
    TextStart(Anchored(p), line[k..]);
    assert line[k] == line[k..][0];
    assert !IsWhite(line[k]) by {
      WhiteFoldsToWhite(line[k], l[0]);
    }
    LeadingWhiteAt(line, k);
  }

  /** A match of a pattern starting with text starts with a character equal to it up to case. */
  lemma TextStart(p: Pattern, s: string)
    requires StartsWithText(p) && Matches(p, s)
    ensures |s| > 0 && ToLower(s[0]) == ToLower(p[0].text[0])
  {
    var l := p[0].text;
    assert s[..|l|][0] == s[0];
  }

  /** Lower-casing never turns a visible character into whitespace or back. */
  lemma WhiteFoldsToWhite(c: char, d: char)
    requires ToLower(c) == ToLower(d) && !IsWhite(d)
    ensures !IsWhite(c)
  {
  }

  /** k is the leading-whitespace count when everything before it is whitespace and it is not. */
  lemma LeadingWhiteAt(s: string, k: nat)
    requires k < |s| && IsBlank(s[..k]) && !IsWhite(s[k])
    ensures LeadingWhite(s) == k
  {
  }

  /**
   * On a line that fully matches a pattern starting with text, the replacement
   * keeps the line's indentation and puts the replacement text after it.
   */
  lemma ReplaceKeepsIndent(p: Pattern, line: string, replacement: string)
    requires StartsWithText(p) && FullMatch(p, line)
    ensures PatchLine(p, replacement, line) == line[..LeadingWhite(line)] + replacement
  {
    FullMatchStart(p, line);
    var n := LeadingWhite(line);
    forall j | 0 <= j < n
      ensures !Matches(Anchored(p), line[j..])
    {
      if Matches(Anchored(p), line[j..]) {
        TextStart(Anchored(p), line[j..]);
        assert line[j..][0] == line[j];
        WhiteFoldsToWhite(line[j], p[0].text[0]);
      }
    }
    var r := FirstMatchFrom(p, line, 0);
    assert r == Some(n);
  }

  /** Indenting a full match keeps it a full match. */
  lemma FullMatchIndented(p: Pattern, w: string, line: string)
    requires IsBlank(w) && FullMatch(p, line)
    ensures FullMatch(p, w + line)
  {
    var k := HeadLength(Spaces(false), Anchored(p), line);
    var s := w + line;
    assert s[..|w| + k] == w + line[..k];
    assert s[|w| + k..] == line[k..];
    HeadClose(Spaces(false), Anchored(p), s, |w| + k);
  }

  /**
   * A full match has its last visible character equal, up to case, to the last
   * character of the pattern's final literal.
   */
  lemma FullMatchEnd(p: Pattern, l: string, line: string)
    requires l != [] && FullMatch(p + [Lit(l)], line)
    requires line != [] && !IsWhite(line[|line| - 1])
    ensures ToLower(line[|line| - 1]) == ToLower(l[|l| - 1])
    ensures |l| <= |line| && EqualsIgnoreCase(line[|line| - |l|..], l)
  {
    var t := LastLiteralTail(p, l, line);
    var w := t[|l|..];
    LastOfBlank(w, t, line);
    assert t == t[..|l|];
    assert t[|l| - 1] == line[|line| - 1];
  }

  /** The tail of a full match that the final literal and the closing \s* cover. */
  lemma LastLiteralTail(p: Pattern, l: string, line: string) returns (t: string)
    requires FullMatch(p + [Lit(l)], line)
    ensures |l| <= |t| <= |line| && t == line[|line| - |t|..]
    ensures EqualsIgnoreCase(t[..|l|], l) && IsBlank(t[|l|..])
  {
    var j := HeadLength(Spaces(false), Anchored(p + [Lit(l)]), line);
    assert Anchored(p + [Lit(l)]) == p + [Lit(l), Spaces(false)];
    var k := MatchesSplit(p, [Lit(l), Spaces(false)], line[j..]);
    t := line[j..][k..];
    assert t == line[j + k..];
    assert [Lit(l), Spaces(false)][1..] == [Spaces(false)];
    SpacesAlone(t[|l|..]);
  }

  /** A non-empty blank tail of a line ends in whitespace. */
  lemma LastOfBlank(w: string, t: string, line: string)
    requires IsBlank(w) && |w| <= |t| <= |line|
    requires w == t[|t| - |w|..] && t == line[|line| - |t|..]
    requires line != [] && !IsWhite(line[|line| - 1])
    ensures w == []
  {
  }

  /** The least length a match of p can have: its literals plus one per \s+. */
  function MinLength(p: Pattern): nat {
    if p == [] then 0
    else
      (match p[0]
       case Lit(l) => |l|
       case Spaces(atLeastOne) => if atLeastOne then 1 else 0
       case AnyRun => 0)
      + MinLength(p[1..])
  }

  lemma {:induction false} MatchesMinLength(p: Pattern, s: string)
    requires Matches(p, s)
    ensures |s| >= MinLength(p)
    decreases |p|
  {
    if p != [] {
      var k := HeadLength(p[0], p[1..], s);
      MatchesMinLength(p[1..], s[k..]);
    }
  }

  /** A line shorter than the pattern's literals cannot fully match it. */
  lemma FullMatchMinLength(p: Pattern, line: string)
    requires FullMatch(p, line)
    ensures |line| >= MinLength(p)
  {
    var k := HeadLength(Spaces(false), Anchored(p), line);
    var q := MatchesSplit(p, [Spaces(false)], line[k..]);
    MatchesMinLength(p, line[k..][..q]);
  }

  /** After one space, a \s* followed by the literal b can only take that space. */
  lemma LitAfterSpace(b: string, q: Pattern, c: string)
    requires b != [] && !IsWhite(b[0]) && c != [] && !IsWhite(c[0])
    requires Matches([Spaces(false), Lit(b)] + q, " " + c)
    ensures |b| <= |c| && EqualsIgnoreCase(c[..|b|], b)
  {
    var u := " " + c;
    var t := [Spaces(false), Lit(b)] + q;
    assert t[0] == Spaces(false) && t[1..] == [Lit(b)] + q;
    var k := HeadLength(Spaces(false), t[1..], u);
    assert ([Lit(b)] + q)[0] == Lit(b);
    var v := u[k..];
    assert |b| <= |v| && EqualsIgnoreCase(v[..|b|], b);
    assert v[..|b|][0] == u[k];
    WhiteFoldsToWhite(u[k], b[0]);
    assert u[0] == ' ' && u[1] == c[0];
    assert k == 1;
    assert v == c;
  }

  /**
   * On a line made of the literal a, one space and then visible text c, a full match
   * of a pattern starting with a, \s* and the literal b finds b at the start of c.
   */
  lemma FullMatchSecondLit(a: string, b: string, rest: Pattern, c: string)
    requires a != [] && !IsWhite(a[0]) && b != [] && !IsWhite(b[0]) && c != [] && !IsWhite(c[0])
    requires FullMatch([Lit(a), Spaces(false), Lit(b)] + rest, a + " " + c)
    ensures |b| <= |c| && EqualsIgnoreCase(c[..|b|], b)
  {
    var p := [Lit(a), Spaces(false), Lit(b)] + rest;
    var line := a + " " + c;
    assert line[0] == a[0];
    FullMatchStart(p, line);
    LeadingWhiteAt(line, 0);
    assert line[0..] == line;
    var anchored := Anchored(p);
    assert anchored[0] == Lit(a);
    assert anchored[1..] == [Spaces(false), Lit(b)] + (rest + [Spaces(false)]);
    var k := HeadLength(Lit(a), anchored[1..], line);
    assert line[k..] == " " + c;
    LitAfterSpace(b, rest + [Spaces(false)], c);
  }
}
