/**
 * The XML path walker: a document is a tree of elements and leaf nodes (text,
 * comments, declarations); a path such as "/Project/PropertyGroup/FileVersion"
 * is walked from the document node, matching names case-insensitively and, among
 * several same-named siblings, looking one segment ahead.
 */
module XmlTree {
  import opened Wrappers
  import opened Text

  /**
   * An XmlNode: an element with its namespace URI and child nodes, or a node
   * that cannot have children, named as XmlNode.Name names it ("#text", "#comment", "xml").
   */
  datatype XNode =
    | Element(name: string, namespaceUri: string, children: seq<XNode>)
    | Leaf(name: string, value: string)

  /** The document node: its name is "#document" and its namespace URI is empty. */
  function EmptyDocument(): XNode {
    Element("#document", "", [])
  }

  function ChildrenOf(n: XNode): seq<XNode> {
    if n.Element? then n.children else []
  }

  /** XmlNode.NamespaceURI: empty for every node that is not an element. */
  function NamespaceOf(n: XNode): string {
    if n.Element? then n.namespaceUri else ""
  }

  /** string.Equals(node.Name, name, StringComparison.OrdinalIgnoreCase). */
  predicate NameIs(n: XNode, name: string) {
    EqualsIgnoreCase(n.name, name)
  }

  /** The leaves whose value XmlNode.InnerText collects: text, CDATA and white space, not comments or declarations. */
  predicate IsTextLeaf(n: XNode) {
    n.Leaf? && (n.name == "#text" || n.name == "#cdata-section" || n.name == "#whitespace" || n.name == "#significant-whitespace")
  }

  /** XmlNode.InnerText: a leaf's own value; for an element, the concatenated values of its descendant text leaves. */
  function InnerText(n: XNode): string
    decreases n
  {
    match n
    case Leaf(_, v) => v
    case Element(_, _, cs) => ConcatText(cs)
  }

  function ConcatText(cs: seq<XNode>): string
    decreases cs
  {
    if cs == [] then ""
    else (if cs[0].Element? || IsTextLeaf(cs[0]) then InnerText(cs[0]) else "") + ConcatText(cs[1..])
  }

  /** Setting XmlNode.InnerText: an element's children become one text node; a leaf takes the value. */
  function SetInnerText(n: XNode, value: string): (r: XNode)
    ensures InnerText(r) == value
    ensures r.name == n.name && r.Element? == n.Element? && NamespaceOf(r) == NamespaceOf(n)
  {
    match n
    case Element(name, ns, _) =>
      var text := [Leaf("#text", value)];
      assert ConcatText(text) == value + ConcatText(text[1..]);
      Element(name, ns, text)
    case Leaf(name, _) => Leaf(name, value)
  }

  // Splitting a path

  /**
   * path.Split('/', RemoveEmptyEntries | TrimEntries): the pieces between slashes,
   * each trimmed, with the pieces that are empty after trimming dropped.
   */
  function PathSegments(path: string): (segments: seq<string>)
    ensures forall s <- segments :: s != [] && IsTrimmed(s) && '/' !in s
  {
    KeepNonEmpty(Split(path, '/'))
  }

  function KeepNonEmpty(parts: seq<string>): (segments: seq<string>)
    requires forall p <- parts :: '/' !in p
    ensures forall s <- segments :: s != [] && IsTrimmed(s) && '/' !in s
    ensures |segments| <= |parts|
  {
    if parts == [] then []
    else
      var t := Trim(parts[0]);
      TrimIsTrimmed(parts[0]);
      TrimSubset(parts[0], '/');
      if t == [] then KeepNonEmpty(parts[1..]) else [t] + KeepNonEmpty(parts[1..])
  }

  /** A path "/a/b/c" whose names are non-empty, trimmed and slash-free. */
  function ElementPath(a: string, b: string, c: string): string {
    "/" + a + "/" + b + "/" + c
  }

  predicate IsSegment(s: string) {
    s != [] && IsTrimmed(s) && '/' !in s
  }

  lemma SplitPair(b: string, c: string)
    requires '/' !in b && '/' !in c
    ensures Split(b + ['/'] + c, '/') == [b, c]
  {
    SplitAt(b, '/', c);
    assert Split(c, '/') == [c];
  }

  lemma SplitTriple(a: string, b: string, c: string)
    requires '/' !in a && '/' !in b && '/' !in c
    ensures Split(a + ['/'] + (b + ['/'] + c), '/') == [a, b, c]
  {
    SplitPair(b, c);
    SplitAt(a, '/', b + ['/'] + c);
  }

  /** Splitting "/a/b/c" at the slashes gives an empty piece, then a, b and c. */
  lemma ElementPathSplit(a: string, b: string, c: string)
    requires '/' !in a && '/' !in b && '/' !in c
    ensures Split([] + ['/'] + (a + ['/'] + (b + ['/'] + c)), '/') == [[], a, b, c]
  {
    SplitTriple(a, b, c);
    SplitAt([], '/', a + ['/'] + (b + ['/'] + c));
  }

  lemma ElementPathShape(a: string, b: string, c: string)
    ensures ElementPath(a, b, c) == [] + ['/'] + (a + ['/'] + (b + ['/'] + c))
  {
  }

  /** Dropping a leading empty piece from trimmed non-empty names. */
  lemma KeepSegments(a: string, b: string, c: string)
    requires IsSegment(a) && IsSegment(b) && IsSegment(c)
    ensures KeepNonEmpty([[], a, b, c]) == [a, b, c]
  {
    TrimOfTrimmed(c);
    assert [c][1..] == [];
    assert KeepNonEmpty([c]) == [c];
    TrimOfTrimmed(b);
    assert [b, c][1..] == [c];
    assert KeepNonEmpty([b, c]) == [b, c];
    TrimOfTrimmed(a);
    assert [a, b, c][1..] == [b, c];
    assert KeepNonEmpty([a, b, c]) == [a, b, c];
    assert [[], a, b, c][1..] == [a, b, c];
  }

  /** The segments of "/a/b/c" are a, b and c. */
  lemma ElementPathSegments(a: string, b: string, c: string)
    requires IsSegment(a) && IsSegment(b) && IsSegment(c)
    ensures PathSegments(ElementPath(a, b, c)) == [a, b, c]
  {
    ElementPathShape(a, b, c);
    ElementPathSplit(a, b, c);
    KeepSegments(a, b, c);
  }

  // Choosing a child

  /** Index of the first node named name. */
  function FirstNamed(cs: seq<XNode>, name: string): (r: Option<nat>)
    ensures r.Some? ==> r.value < |cs| && NameIs(cs[r.value], name)
    ensures r.Some? ==> forall j :: 0 <= j < r.value ==> !NameIs(cs[j], name)
    ensures r.None? ==> forall j :: 0 <= j < |cs| ==> !NameIs(cs[j], name)
  {
    if cs == [] then None
    else if NameIs(cs[0], name) then Some(0)
    else match FirstNamed(cs[1..], name)
      case None => None
      case Some(j) => Some(j + 1)
  }

  /** How many nodes are named name. */
  function CountNamed(cs: seq<XNode>, name: string): (n: nat)
    ensures n <= |cs|
  {
    if cs == [] then 0
    else CountNamed(cs[..|cs| - 1], name) + (if NameIs(cs[|cs| - 1], name) then 1 else 0)
  }

  /** The node has a child named name. */
  predicate HasChildNamed(n: XNode, name: string) {
    FirstNamed(ChildrenOf(n), name).Some?
  }

  /** Index of the first node named name that has a child named next. */
  function FirstNamedWithChild(cs: seq<XNode>, name: string, next: string): (r: Option<nat>)
    ensures r.Some? ==> r.value < |cs| && NameIs(cs[r.value], name) && HasChildNamed(cs[r.value], next)
    ensures r.Some? ==> forall j :: 0 <= j < r.value ==> !(NameIs(cs[j], name) && HasChildNamed(cs[j], next))
    ensures r.None? ==> forall j :: 0 <= j < |cs| ==> !(NameIs(cs[j], name) && HasChildNamed(cs[j], next))
  {
    if cs == [] then None
    else if NameIs(cs[0], name) && HasChildNamed(cs[0], next) then Some(0)
    else match FirstNamedWithChild(cs[1..], name, next)
      case None => None
      case Some(j) => Some(j + 1)
  }

  /**
   * The child the walk moves to for segment i: none when no child has that name;
   * the first match when it is the only one or the segment is the last; otherwise
   * the first match that has a child named like the next segment, else the first match.
   */
  function Choose(cs: seq<XNode>, segments: seq<string>, i: nat): (r: Option<nat>)
    requires i < |segments|
    ensures r.Some? ==> r.value < |cs| && NameIs(cs[r.value], segments[i])
    ensures r.None? <==> forall j :: 0 <= j < |cs| ==> !NameIs(cs[j], segments[i])
  {
    var first := FirstNamed(cs, segments[i]);
    if first.None? then None
    else if CountNamed(cs, segments[i]) == 1 || i == |segments| - 1 then first
    else match FirstNamedWithChild(cs, segments[i], segments[i + 1])
      case Some(j) => Some(j)
      case None => first
  }

  /** The same choice without the only-one-match shortcut, which never changes the outcome. */
  function ChooseByLookahead(cs: seq<XNode>, segments: seq<string>, i: nat): Option<nat>
    requires i < |segments|
  {
    var first := FirstNamed(cs, segments[i]);
    if first.None? || i == |segments| - 1 then first
    else match FirstNamedWithChild(cs, segments[i], segments[i + 1])
      case Some(j) => Some(j)
      case None => first
  }

  /** A single match is the first match, which the lookahead also returns. */
  lemma ChooseIgnoresCount(cs: seq<XNode>, segments: seq<string>, i: nat)
    requires i < |segments|
    ensures Choose(cs, segments, i) == ChooseByLookahead(cs, segments, i)
  {
    var name := segments[i];
    var first := FirstNamed(cs, name);
    if first.Some? && CountNamed(cs, name) == 1 && i < |segments| - 1 {
      var w := FirstNamedWithChild(cs, name, segments[i + 1]);
      if w.Some? {
        OnlyMatch(cs, name, first.value, w.value);
      }
    }
  }

  /** With one node named name, any two named nodes are the same one. */
  lemma OnlyMatch(cs: seq<XNode>, name: string, a: nat, b: nat)
    requires CountNamed(cs, name) == 1
    requires a < |cs| && b < |cs| && NameIs(cs[a], name) && NameIs(cs[b], name)
    ensures a == b
  {
    if a < b {
      CountAtLeastTwo(cs, name, a, b);
    } else if b < a {
      CountAtLeastTwo(cs, name, b, a);
    }
  }

  lemma {:induction false} CountAtLeastTwo(cs: seq<XNode>, name: string, a: nat, b: nat)
    requires a < b < |cs| && NameIs(cs[a], name) && NameIs(cs[b], name)
    ensures CountNamed(cs, name) >= 2
    decreases |cs|
  {
    var init := cs[..|cs| - 1];
    if b < |cs| - 1 {
      CountAtLeastTwo(init, name, a, b);
    } else {
      CountAtLeastOne(init, name, a);
    }
  }

  lemma {:induction false} CountAtLeastOne(cs: seq<XNode>, name: string, a: nat)
    requires a < |cs| && NameIs(cs[a], name)
    ensures CountNamed(cs, name) >= 1
    decreases |cs|
  {
    if a < |cs| - 1 {
      CountAtLeastOne(cs[..|cs| - 1], name, a);
    }
  }

  // Positions in a tree

  /** p names a node of t: each step is a child index of an element. */
  predicate ValidPath(t: XNode, p: seq<nat>)
    decreases |p|
  {
    p == [] || (t.Element? && p[0] < |t.children| && ValidPath(t.children[p[0]], p[1..]))
  }

  function At(t: XNode, p: seq<nat>): XNode
    requires ValidPath(t, p)
    decreases |p|
  {
    if p == [] then t else At(t.children[p[0]], p[1..])
  }

  /** t with the node at p replaced by n. */
  function ReplaceAt(t: XNode, p: seq<nat>, n: XNode): XNode
    requires ValidPath(t, p)
    decreases |p|
  {
    if p == [] then n
    else t.(children := t.children[p[0] := ReplaceAt(t.children[p[0]], p[1..], n)])
  }

  lemma {:induction false} AtSnoc(t: XNode, p: seq<nat>, j: nat)
    requires ValidPath(t, p) && At(t, p).Element? && j < |At(t, p).children|
    ensures ValidPath(t, p + [j]) && At(t, p + [j]) == At(t, p).children[j]
    decreases |p|
  {
    if p == [] {
      assert p + [j] == [j];
      assert [j][1..] == [];
    } else {
      assert (p + [j])[0] == p[0] && (p + [j])[1..] == p[1..] + [j];
      AtSnoc(t.children[p[0]], p[1..], j);
    }
  }

  lemma {:induction false} ReplaceAtSnoc(t: XNode, p: seq<nat>, j: nat, c: XNode)
    requires ValidPath(t, p) && At(t, p).Element? && j < |At(t, p).children|
    ensures ValidPath(t, p + [j])
    ensures ReplaceAt(t, p + [j], c) == ReplaceAt(t, p, At(t, p).(children := At(t, p).children[j := c]))
    decreases |p|
  {
    AtSnoc(t, p, j);
    if p == [] {
      assert p + [j] == [j];
      assert [j][1..] == [];
    } else {
      assert (p + [j])[0] == p[0] && (p + [j])[1..] == p[1..] + [j];
      ReplaceAtSnoc(t.children[p[0]], p[1..], j, c);
    }
  }

  lemma {:induction false} AtReplaceAt(t: XNode, p: seq<nat>, n: XNode)
    requires ValidPath(t, p)
    ensures ValidPath(ReplaceAt(t, p, n), p) && At(ReplaceAt(t, p, n), p) == n
    decreases |p|
  {
    if p != [] {
      AtReplaceAt(t.children[p[0]], p[1..], n);
    }
  }

  lemma {:induction false} ReplaceAtTwice(t: XNode, p: seq<nat>, n: XNode, m: XNode)
    requires ValidPath(t, p)
    ensures ValidPath(ReplaceAt(t, p, n), p)
    ensures ReplaceAt(ReplaceAt(t, p, n), p, m) == ReplaceAt(t, p, m)
    decreases |p|
  {
    AtReplaceAt(t, p, n);
    if p != [] {
      ReplaceAtTwice(t.children[p[0]], p[1..], n, m);
    }
  }

  // The two walks as functions of the tree

  /**
   * XmlNode.AppendChild of a new element throws InvalidOperationException: a node
   * that cannot have children refuses it, and so does a document node that already
   * has its document element.
   */
  predicate RefusesElement(n: XNode) {
    n.Leaf? || (n.name == "#document" && exists k :: 0 <= k < |n.children| && n.children[k].Element?)
  }

  /**
   * AppendOrUpdateXmlNode from node n at segment i: a missing child is created in
   * n's namespace (unless n refuses it), then the walk goes on; at the end the
   * node's inner text is set.
   */
  function AppendOrUpdateFrom(n: XNode, segments: seq<string>, i: nat, value: string): Result<XNode>
    requires i <= |segments|
    decreases |segments| - i
  {
    if i == |segments| then Ok(SetInnerText(n, value))
    else match Choose(ChildrenOf(n), segments, i)
      case None =>
        if RefusesElement(n) then Err(InvalidOperation)
        else
          var c :- AppendOrUpdateFrom(Element(segments[i], n.namespaceUri, []), segments, i + 1, value);
          Ok(n.(children := n.children + [c]))
      case Some(j) =>
        var c :- AppendOrUpdateFrom(n.children[j], segments, i + 1, value);
        Ok(n.(children := n.children[j := c]))
  }

  /** The walk of UpdateXmlNodeIfExists from node n: None as soon as a segment has no match. */
  function UpdateFrom(n: XNode, segments: seq<string>, i: nat, value: string): Option<XNode>
    requires i <= |segments|
    decreases |segments| - i
  {
    if i == |segments| then Some(SetInnerText(n, value))
    else match Choose(ChildrenOf(n), segments, i)
      case None => None
      case Some(j) =>
        match UpdateFrom(n.children[j], segments, i + 1, value)
        case None => None
        case Some(c) => Some(n.(children := n.children[j := c]))
  }

  /** The node the walk reaches without creating anything, if every segment matches. */
  function Lookup(n: XNode, segments: seq<string>, i: nat): Option<XNode>
    requires i <= |segments|
    decreases |segments| - i
  {
    if i == |segments| then Some(n)
    else match Choose(ChildrenOf(n), segments, i)
      case None => None
      case Some(j) => Lookup(n.children[j], segments, i + 1)
  }

  /** AppendOrUpdateXmlNode on a document; with no segments the walk never leaves the document node, whose InnerText cannot be set. */
  function AppendOrUpdateXmlNode(doc: XNode, path: string, value: string): Result<XNode> {
    var segments := PathSegments(path);
    if segments == [] then Err(InvalidOperation) else AppendOrUpdateFrom(doc, segments, 0, value)
  }

  /** UpdateXmlNodeIfExists on a document: a missing segment leaves it as it was. */
  function UpdateXmlNodeIfExists(doc: XNode, path: string, value: string): Result<XNode> {
    var segments := PathSegments(path);
    if segments == [] then Err(InvalidOperation)
    else match UpdateFrom(doc, segments, 0, value)
      case None => Ok(doc)
      case Some(d) => Ok(d)
  }

  // Properties of the walks

  /** Update finds something to change exactly when the path can be looked up. */
  lemma {:induction false} UpdateFindsLookup(n: XNode, segments: seq<string>, i: nat, value: string)
    requires i <= |segments|
    ensures UpdateFrom(n, segments, i, value).Some? <==> Lookup(n, segments, i).Some?
    decreases |segments| - i, 1
  {
    if i < |segments| {
      var choice := Choose(ChildrenOf(n), segments, i);
      if choice.Some? {
        UpdateFindsLookupDescending(n, segments, i, value, choice.value);
      }
    }
  }

  lemma {:induction false} UpdateFindsLookupDescending(n: XNode, segments: seq<string>, i: nat, value: string, j: nat)
    requires i < |segments| && Choose(ChildrenOf(n), segments, i) == Some(j)
    ensures UpdateFrom(n, segments, i, value).Some? <==> Lookup(n, segments, i).Some?
    decreases |segments| - i, 0
  {
    UpdateFindsLookup(n.children[j], segments, i + 1, value);
  }

  /** Where the whole path exists, creating and updating do the same thing. */
  lemma {:induction false} AppendAgreesWithUpdate(n: XNode, segments: seq<string>, i: nat, value: string)
    requires i <= |segments| && Lookup(n, segments, i).Some?
    ensures UpdateFrom(n, segments, i, value).Some?
    ensures AppendOrUpdateFrom(n, segments, i, value) == Ok(UpdateFrom(n, segments, i, value).value)
    decreases |segments| - i, 1
  {
    if i < |segments| {
      AppendAgreesDescending(n, segments, i, value, Choose(ChildrenOf(n), segments, i).value);
    }
  }

  lemma {:induction false} AppendAgreesDescending(n: XNode, segments: seq<string>, i: nat, value: string, j: nat)
    requires i < |segments| && Choose(ChildrenOf(n), segments, i) == Some(j)
    requires Lookup(n, segments, i).Some?
    ensures UpdateFrom(n, segments, i, value).Some?
    ensures AppendOrUpdateFrom(n, segments, i, value) == Ok(UpdateFrom(n, segments, i, value).value)
    decreases |segments| - i, 0
  {
    AppendAgreesWithUpdate(n.children[j], segments, i + 1, value);
  }

  /** The only error the create walk raises is a refused child: under a leaf, or a second document element. */
  lemma {:induction false} AppendFailsOnlyAtLeaf(n: XNode, segments: seq<string>, i: nat, value: string)
    requires i <= |segments|
    ensures AppendOrUpdateFrom(n, segments, i, value).Err? ==> AppendOrUpdateFrom(n, segments, i, value) == Err(InvalidOperation)
    decreases |segments| - i, 1
  {
    if i < |segments| {
      var choice := Choose(ChildrenOf(n), segments, i);
      if choice.None? {
        AppendFailsCreating(n, segments, i, value);
      } else {
        AppendFailsDescending(n, segments, i, value, choice.value);
      }
    }
  }

  lemma {:induction false} AppendFailsCreating(n: XNode, segments: seq<string>, i: nat, value: string)
    requires i < |segments| && Choose(ChildrenOf(n), segments, i).None?
    ensures AppendOrUpdateFrom(n, segments, i, value).Err? ==> AppendOrUpdateFrom(n, segments, i, value) == Err(InvalidOperation)
    decreases |segments| - i, 0
  {
    if n.Element? {
      AppendFailsOnlyAtLeaf(Element(segments[i], n.namespaceUri, []), segments, i + 1, value);
    }
  }

  lemma {:induction false} AppendFailsDescending(n: XNode, segments: seq<string>, i: nat, value: string, j: nat)
    requires i < |segments| && Choose(ChildrenOf(n), segments, i) == Some(j)
    ensures AppendOrUpdateFrom(n, segments, i, value).Err? ==> AppendOrUpdateFrom(n, segments, i, value) == Err(InvalidOperation)
    decreases |segments| - i, 0
  {
    AppendFailsOnlyAtLeaf(n.children[j], segments, i + 1, value);
  }

  /** An element just created has no children, so nothing below it is ever refused. */
  lemma {:induction false} FreshElementAccepts(name: string, ns: string, segments: seq<string>, i: nat, value: string)
    requires i <= |segments|
    ensures AppendOrUpdateFrom(Element(name, ns, []), segments, i, value).Ok?
    decreases |segments| - i
  {
    if i < |segments| {
      FreshElementAccepts(segments[i], ns, segments, i + 1, value);
    }
  }

  /**
   * A path whose first segment names no child of the document creates a new
   * document element, which fails exactly when the document already has one.
   */
  lemma SecondDocumentElementRefused(doc: XNode, path: string, value: string)
    requires doc.Element? && doc.name == "#document"
    requires PathSegments(path) != [] && !HasChildNamed(doc, PathSegments(path)[0])
    ensures AppendOrUpdateXmlNode(doc, path, value).Err?
            <==> exists k :: 0 <= k < |doc.children| && doc.children[k].Element?
    ensures AppendOrUpdateXmlNode(doc, path, value).Err? ==> AppendOrUpdateXmlNode(doc, path, value) == Err(InvalidOperation)
  {
    var segments := PathSegments(path);
    FreshElementAccepts(segments[0], doc.namespaceUri, segments, 1, value);
  }

  /** The create walk keeps the name, kind and namespace of the node it starts from. */
  lemma {:induction false} AppendKeepsNode(n: XNode, segments: seq<string>, i: nat, value: string)
    requires i <= |segments| && AppendOrUpdateFrom(n, segments, i, value).Ok?
    ensures var r := AppendOrUpdateFrom(n, segments, i, value).value;
            r.name == n.name && r.Element? == n.Element? && NamespaceOf(r) == NamespaceOf(n)
    ensures i < |segments| ==> HasChildNamed(AppendOrUpdateFrom(n, segments, i, value).value, segments[i])
    decreases |segments| - i, 1
  {
    if i < |segments| {
      var choice := Choose(ChildrenOf(n), segments, i);
      if choice.None? {
        AppendKeepsCreating(n, segments, i, value);
      } else {
        AppendKeepsDescending(n, segments, i, value, choice.value);
      }
    }
  }

  lemma {:induction false} AppendKeepsCreating(n: XNode, segments: seq<string>, i: nat, value: string)
    requires i < |segments| && Choose(ChildrenOf(n), segments, i).None?
    requires AppendOrUpdateFrom(n, segments, i, value).Ok?
    ensures var r := AppendOrUpdateFrom(n, segments, i, value).value;
            r.name == n.name && r.Element? == n.Element? && NamespaceOf(r) == NamespaceOf(n)
            && HasChildNamed(r, segments[i])
    decreases |segments| - i, 0
  {
    var r := AppendOrUpdateFrom(n, segments, i, value).value;
    var e := Element(segments[i], n.namespaceUri, []);
    AppendKeepsNode(e, segments, i + 1, value);
    var c := AppendOrUpdateFrom(e, segments, i + 1, value).value;
    assert r == n.(children := n.children + [c]);
    assert EqualsIgnoreCase(c.name, segments[i]);
    HasChildAt(r, |n.children|, segments[i]);
  }

  lemma {:induction false} AppendKeepsDescending(n: XNode, segments: seq<string>, i: nat, value: string, j: nat)
    requires i < |segments| && Choose(ChildrenOf(n), segments, i) == Some(j)
    requires AppendOrUpdateFrom(n, segments, i, value).Ok?
    ensures var r := AppendOrUpdateFrom(n, segments, i, value).value;
            r.name == n.name && r.Element? == n.Element? && NamespaceOf(r) == NamespaceOf(n)
            && HasChildNamed(r, segments[i])
    decreases |segments| - i, 0
  {
    var r := AppendOrUpdateFrom(n, segments, i, value).value;
    AppendKeepsNode(n.children[j], segments, i + 1, value);
    var c := AppendOrUpdateFrom(n.children[j], segments, i + 1, value).value;
    assert r == n.(children := n.children[j := c]);
    HasChildAt(r, j, segments[i]);
  }

  /** A child named name at any position means the node has a child named name. */
  lemma HasChildAt(n: XNode, k: nat, name: string)
    requires k < |ChildrenOf(n)| && NameIs(ChildrenOf(n)[k], name)
    ensures HasChildNamed(n, name)
  {
  }

  /** Renaming nothing keeps the count of named nodes. */
  lemma {:induction false} CountNamedAgree(cs: seq<XNode>, ds: seq<XNode>, name: string)
    requires |cs| == |ds| && forall k :: 0 <= k < |cs| ==> cs[k].name == ds[k].name
    ensures CountNamed(cs, name) == CountNamed(ds, name)
    decreases |cs|
  {
    if cs != [] {
      CountNamedAgree(cs[..|cs| - 1], ds[..|ds| - 1], name);
    }
  }

  /** No node named name means a count of 0. */
  lemma {:induction false} CountNamedZero(cs: seq<XNode>, name: string)
    requires forall k :: 0 <= k < |cs| ==> !NameIs(cs[k], name)
    ensures CountNamed(cs, name) == 0
    decreases |cs|
  {
    if cs != [] {
      CountNamedZero(cs[..|cs| - 1], name);
    }
  }

  /** A new child named like the segment, appended where none was, is the one chosen next time. */
  lemma ChooseAfterAppend(cs: seq<XNode>, segments: seq<string>, i: nat, c: XNode)
    requires i < |segments| && Choose(cs, segments, i).None? && NameIs(c, segments[i])
    ensures Choose(cs + [c], segments, i) == Some(|cs|)
  {
    var name := segments[i];
    CountNamedZero(cs, name);
    CountNamedSnoc(cs, c, name);
    FirstNamedAfterMisses(cs, c, name);
    ChooseSingle(cs + [c], segments, i);
  }

  /** Appending a named node adds one to the count. */
  lemma CountNamedSnoc(cs: seq<XNode>, c: XNode, name: string)
    requires NameIs(c, name)
    ensures CountNamed(cs + [c], name) == CountNamed(cs, name) + 1
  {
    assert (cs + [c])[..|cs|] == cs;
  }

  /** With exactly one match, the choice is the first match. */
  lemma ChooseSingle(cs: seq<XNode>, segments: seq<string>, i: nat)
    requires i < |segments| && CountNamed(cs, segments[i]) == 1
    ensures Choose(cs, segments, i) == FirstNamed(cs, segments[i])
  {
  }

  /** A named node appended after nodes of other names is the first one named so. */
  lemma FirstNamedAfterMisses(cs: seq<XNode>, c: XNode, name: string)
    requires forall k :: 0 <= k < |cs| ==> !NameIs(cs[k], name)
    requires NameIs(c, name)
    ensures FirstNamed(cs + [c], name) == Some(|cs|)
  {
    var ds := cs + [c];
    assert forall k :: 0 <= k < |cs| ==> ds[k] == cs[k];
    FirstNamedAt(ds, name, |cs|);
  }

  /**
   * Replacing the chosen child by one with the same name that, unless the segment is
   * the last, has a child named like the next segment keeps it the chosen one.
   */
  lemma ChooseAfterUpdate(cs: seq<XNode>, segments: seq<string>, i: nat, j: nat, c: XNode)
    requires i < |segments| && Choose(cs, segments, i) == Some(j)
    requires c.name == cs[j].name
    requires i + 1 < |segments| ==> HasChildNamed(c, segments[i + 1])
    ensures Choose(cs[j := c], segments, i) == Some(j)
  {
    var ds := cs[j := c];
    var name := segments[i];
    assert forall k :: 0 <= k < |cs| ==> ds[k].name == cs[k].name;
    CountNamedAgree(cs, ds, name);
    var first := FirstNamed(cs, name).value;
    FirstNamedAt(ds, name, first);
    if CountNamed(cs, name) != 1 && i != |segments| - 1 {
      var next := segments[i + 1];
      assert forall k :: 0 <= k < j ==> ds[k] == cs[k];
      FirstNamedWithChildAt(ds, name, next, j);
    }
  }

  /** A named node with no named node before it is the first one. */
  lemma FirstNamedAt(cs: seq<XNode>, name: string, j: nat)
    requires j < |cs| && NameIs(cs[j], name)
    requires forall k :: 0 <= k < j ==> !NameIs(cs[k], name)
    ensures FirstNamed(cs, name) == Some(j)
  {
    var f := FirstNamed(cs, name);
    assert f.Some? && f.value <= j;
  }

  /** A named node with a child named next, and no such node before it, is the first one. */
  lemma FirstNamedWithChildAt(cs: seq<XNode>, name: string, next: string, j: nat)
    requires j < |cs| && NameIs(cs[j], name) && HasChildNamed(cs[j], next)
    requires forall k :: 0 <= k < j ==> !(NameIs(cs[k], name) && HasChildNamed(cs[k], next))
    ensures FirstNamedWithChild(cs, name, next) == Some(j)
  {
    var f := FirstNamedWithChild(cs, name, next);
    assert f.Some? && f.value <= j;
  }

  /** After AppendOrUpdateXmlNode, walking the same path reaches a node whose inner text is the value. */
  lemma {:induction false} AppendThenLookup(n: XNode, segments: seq<string>, i: nat, value: string)
    requires i <= |segments| && AppendOrUpdateFrom(n, segments, i, value).Ok?
    ensures var r := AppendOrUpdateFrom(n, segments, i, value).value;
            Lookup(r, segments, i).Some? && InnerText(Lookup(r, segments, i).value) == value
    decreases |segments| - i, 1
  {
    if i < |segments| {
      var choice := Choose(ChildrenOf(n), segments, i);
      if choice.None? {
        AppendThenLookupCreating(n, segments, i, value);
      } else {
        AppendThenLookupDescending(n, segments, i, value, choice.value);
      }
    }
  }

  lemma {:induction false} AppendThenLookupCreating(n: XNode, segments: seq<string>, i: nat, value: string)
    requires i < |segments| && Choose(ChildrenOf(n), segments, i).None?
    requires AppendOrUpdateFrom(n, segments, i, value).Ok?
    ensures var r := AppendOrUpdateFrom(n, segments, i, value).value;
            Lookup(r, segments, i).Some? && InnerText(Lookup(r, segments, i).value) == value
    decreases |segments| - i, 0
  {
    var r := AppendOrUpdateFrom(n, segments, i, value).value;
    var e := Element(segments[i], n.namespaceUri, []);
    var c := AppendOrUpdateFrom(e, segments, i + 1, value).value;
    AppendKeepsNode(e, segments, i + 1, value);
    AppendThenLookup(e, segments, i + 1, value);
    ChooseAfterAppend(n.children, segments, i, c);
    assert r.children == n.children + [c];
    assert r.children[|n.children|] == c;
  }

  lemma {:induction false} AppendThenLookupDescending(n: XNode, segments: seq<string>, i: nat, value: string, j: nat)
    requires i < |segments| && Choose(ChildrenOf(n), segments, i) == Some(j)
    requires AppendOrUpdateFrom(n, segments, i, value).Ok?
    ensures var r := AppendOrUpdateFrom(n, segments, i, value).value;
            Lookup(r, segments, i).Some? && InnerText(Lookup(r, segments, i).value) == value
    decreases |segments| - i, 0
  {
    var r := AppendOrUpdateFrom(n, segments, i, value).value;
    var c := AppendOrUpdateFrom(n.children[j], segments, i + 1, value).value;
    AppendKeepsNode(n.children[j], segments, i + 1, value);
    AppendThenLookup(n.children[j], segments, i + 1, value);
    ChooseAfterUpdate(n.children, segments, i, j, c);
    assert r.children == n.children[j := c];
  }

  /** The document-level form: the path written is the path read back. */
  lemma AppendOrUpdateXmlNodeReads(doc: XNode, path: string, value: string)
    requires AppendOrUpdateXmlNode(doc, path, value).Ok?
    ensures var d := AppendOrUpdateXmlNode(doc, path, value).value;
            Lookup(d, PathSegments(path), 0).Some?
            && InnerText(Lookup(d, PathSegments(path), 0).value) == value
  {
    AppendThenLookup(doc, PathSegments(path), 0, value);
  }

  /** UpdateXmlNodeIfExists changes nothing when a segment is missing and otherwise writes like AppendOrUpdateXmlNode. */
  lemma UpdateXmlNodeIfExistsCases(doc: XNode, path: string, value: string)
    requires PathSegments(path) != []
    ensures Lookup(doc, PathSegments(path), 0).None? ==> UpdateXmlNodeIfExists(doc, path, value) == Ok(doc)
    ensures Lookup(doc, PathSegments(path), 0).Some? ==>
              UpdateXmlNodeIfExists(doc, path, value) == AppendOrUpdateXmlNode(doc, path, value)
  {
    var segments := PathSegments(path);
    UpdateFindsLookup(doc, segments, 0, value);
    if Lookup(doc, segments, 0).Some? {
      AppendAgreesWithUpdate(doc, segments, 0, value);
    }
  }

  /** With no path segment the walk stays on the document node, whose inner text cannot be set. */
  lemma EmptyPathRefused(doc: XNode, path: string, value: string)
    requires PathSegments(path) == []
    ensures AppendOrUpdateXmlNode(doc, path, value) == Err(InvalidOperation)
    ensures UpdateXmlNodeIfExists(doc, path, value) == Err(InvalidOperation)
  {
  }

  /** A missing child is created under the current node's namespace URI, named exactly as the segment. */
  lemma CreatedInParentNamespace(n: XNode, segments: seq<string>, i: nat, value: string)
    requires i < |segments| && n.Element? && Choose(n.children, segments, i).None?
    requires AppendOrUpdateFrom(n, segments, i, value).Ok?
    ensures var r := AppendOrUpdateFrom(n, segments, i, value).value;
            |r.children| == |n.children| + 1 && r.children[..|n.children|] == n.children
            && r.children[|n.children|].Element?
            && r.children[|n.children|].name == segments[i]
            && r.children[|n.children|].namespaceUri == n.namespaceUri
  {
    var e := Element(segments[i], n.namespaceUri, []);
    AppendKeepsNode(e, segments, i + 1, value);
  }

  /** An element without children, such as a self-closing one, receives the value as its only text node. */
  lemma EmptyElementTakesText(name: string, ns: string, value: string)
    ensures SetInnerText(Element(name, ns, []), value) == Element(name, ns, [Leaf("#text", value)])
  {
  }

  /**
   * The tree inside an XmlDocument. The walks move a cursor (the child-index path
   * of the current node) down from the document node and change the tree in place.
   */
  class XmlDocument {
    var root: XNode

    constructor (root: XNode)
      ensures this.root == root
    {
      this.root := root;
    }

    /** The outcome of finishing the create walk from the cursor. */
    function Completed(cursor: seq<nat>, segments: seq<string>, i: nat, value: string): Result<XNode>
      requires i <= |segments| && ValidPath(root, cursor)
      reads this
    {
      var sub :- AppendOrUpdateFrom(At(root, cursor), segments, i, value);
      Ok(ReplaceAt(root, cursor, sub))
    }

    /** AppendOrUpdateXmlNode(doc, path, value). */
    method AppendOrUpdateNode(path: string, value: string) returns (r: Outcome)
      modifies this
      ensures AppendOrUpdateXmlNode(old(root), path, value).Ok? ==>
                r == Pass && root == AppendOrUpdateXmlNode(old(root), path, value).value
      ensures AppendOrUpdateXmlNode(old(root), path, value).Err? ==>
                r == Fail(AppendOrUpdateXmlNode(old(root), path, value).error) && root == old(root)
    {
      var segments := PathSegments(path);
      var cursor: seq<nat> := [];
      ghost var created := false;
      var i := 0;
      while i < |segments|
        invariant 0 <= i <= |segments| && |cursor| == i
        invariant ValidPath(root, cursor)
        invariant Completed(cursor, segments, i, value) == AppendOrUpdateFrom(old(root), segments, 0, value)
        invariant !created ==> root == old(root)
        invariant created ==> i > 0
        invariant created ==> At(root, cursor).Element? && At(root, cursor).children == []
      {
        var node := At(root, cursor);
        var choice := Choose(ChildrenOf(node), segments, i);
        if choice.None? {
          if RefusesElement(node) {
            return Fail(InvalidOperation);
          }
          var child := Element(segments[i], node.namespaceUri, []);
          var grown := node.(children := node.children + [child]);
          CreateStep(root, cursor, segments, i, value);
          root := ReplaceAt(root, cursor, grown);
          cursor := cursor + [|node.children|];
          created := true;
        } else {
          DescendStep(root, cursor, segments, i, value, choice.value);
          cursor := cursor + [choice.value];
        }
        i := i + 1;
      }
      if cursor == [] {
        return Fail(InvalidOperation);
      }
      root := ReplaceAt(root, cursor, SetInnerText(At(root, cursor), value));
      return Pass;
    }

    /** UpdateXmlNodeIfExists(doc, path, value). */
    method UpdateNodeIfExists(path: string, value: string) returns (r: Outcome)
      modifies this
      ensures UpdateXmlNodeIfExists(old(root), path, value).Ok? ==>
                r == Pass && root == UpdateXmlNodeIfExists(old(root), path, value).value
      ensures UpdateXmlNodeIfExists(old(root), path, value).Err? ==>
                r == Fail(UpdateXmlNodeIfExists(old(root), path, value).error) && root == old(root)
    {
      var segments := PathSegments(path);
      var cursor: seq<nat> := [];
      var i := 0;
      while i < |segments|
        invariant 0 <= i <= |segments| && |cursor| == i
        invariant ValidPath(root, cursor) && root == old(root)
        invariant UpdateFrom(root, segments, 0, value) == UpdateCompleted(root, cursor, segments, i, value)
      {
        var node := At(root, cursor);
        var choice := Choose(ChildrenOf(node), segments, i);
        if choice.None? {
          UpdateStopsAtMissing(root, cursor, segments, i, value);
          return Pass;
        }
        UpdateDescendStep(root, cursor, segments, i, value, choice.value);
        cursor := cursor + [choice.value];
        i := i + 1;
      }
      if cursor == [] {
        return Fail(InvalidOperation);
      }
      UpdateFinishes(root, cursor, segments, value);
      root := ReplaceAt(root, cursor, SetInnerText(At(root, cursor), value));
      return Pass;
    }
  }

  /** A segment with no matching child ends the update walk with nothing to change. */
  lemma UpdateStopsAtMissing(t: XNode, cursor: seq<nat>, segments: seq<string>, i: nat, value: string)
    requires i < |segments| && ValidPath(t, cursor)
    requires Choose(ChildrenOf(At(t, cursor)), segments, i).None?
    ensures UpdateCompleted(t, cursor, segments, i, value).None?
  {
  }

  /** At the end of the path the update walk sets the inner text of the node under the cursor. */
  lemma UpdateFinishes(t: XNode, cursor: seq<nat>, segments: seq<string>, value: string)
    requires ValidPath(t, cursor)
    ensures UpdateCompleted(t, cursor, segments, |segments|, value)
            == Some(ReplaceAt(t, cursor, SetInnerText(At(t, cursor), value)))
  {
  }

  /** The outcome of finishing the update walk from the node at cursor. */
  function UpdateCompleted(t: XNode, cursor: seq<nat>, segments: seq<string>, i: nat, value: string): Option<XNode>
    requires i <= |segments| && ValidPath(t, cursor)
  {
    match UpdateFrom(At(t, cursor), segments, i, value)
    case None => None
    case Some(sub) => Some(ReplaceAt(t, cursor, sub))
  }

  /** Moving the cursor to the chosen child does not change what the create walk will produce. */
  lemma DescendStep(t: XNode, cursor: seq<nat>, segments: seq<string>, i: nat, value: string, j: nat)
    requires i < |segments| && ValidPath(t, cursor)
    requires Choose(ChildrenOf(At(t, cursor)), segments, i) == Some(j)
    ensures ValidPath(t, cursor + [j]) && At(t, cursor + [j]) == At(t, cursor).children[j]
    ensures (var sub :- AppendOrUpdateFrom(At(t, cursor + [j]), segments, i + 1, value);
             Ok(ReplaceAt(t, cursor + [j], sub)))
         == (var sub :- AppendOrUpdateFrom(At(t, cursor), segments, i, value);
             Ok(ReplaceAt(t, cursor, sub)))
  {
    AtSnoc(t, cursor, j);
    var node := At(t, cursor);
    var c := AppendOrUpdateFrom(node.children[j], segments, i + 1, value);
    if c.Ok? {
      ReplaceAtSnoc(t, cursor, j, c.value);
    }
  }

  /** Appending the missing child and moving onto it does not change what the create walk will produce. */
  lemma CreateStep(t: XNode, cursor: seq<nat>, segments: seq<string>, i: nat, value: string)
    requires i < |segments| && ValidPath(t, cursor) && !RefusesElement(At(t, cursor))
    requires Choose(At(t, cursor).children, segments, i).None?
    ensures var node := At(t, cursor);
            var child := Element(segments[i], node.namespaceUri, []);
            var t' := ReplaceAt(t, cursor, node.(children := node.children + [child]));
            var cursor' := cursor + [|node.children|];
            ValidPath(t', cursor') && At(t', cursor') == child
            && (var sub :- AppendOrUpdateFrom(child, segments, i + 1, value); Ok(ReplaceAt(t', cursor', sub)))
               == (var sub :- AppendOrUpdateFrom(node, segments, i, value); Ok(ReplaceAt(t, cursor, sub)))
  {
    var node := At(t, cursor);
    var child := Element(segments[i], node.namespaceUri, []);
    var grown := node.(children := node.children + [child]);
    var t' := ReplaceAt(t, cursor, grown);
    var k := |node.children|;
    AtReplaceAt(t, cursor, grown);
    AtSnoc(t', cursor, k);
    var c := AppendOrUpdateFrom(child, segments, i + 1, value);
    if c.Ok? {
      ReplaceAtSnoc(t', cursor, k, c.value);
      assert grown.children[k := c.value] == node.children + [c.value];
      ReplaceAtTwice(t, cursor, grown, node.(children := node.children + [c.value]));
    }
  }

  /** Moving the cursor to the chosen child does not change what the update walk will produce. */
  lemma UpdateDescendStep(t: XNode, cursor: seq<nat>, segments: seq<string>, i: nat, value: string, j: nat)
    requires i < |segments| && ValidPath(t, cursor)
    requires Choose(ChildrenOf(At(t, cursor)), segments, i) == Some(j)
    ensures ValidPath(t, cursor + [j])
    ensures UpdateCompleted(t, cursor + [j], segments, i + 1, value) == UpdateCompleted(t, cursor, segments, i, value)
  {
    AtSnoc(t, cursor, j);
    var node := At(t, cursor);
    var c := UpdateFrom(node.children[j], segments, i + 1, value);
    if c.Some? {
      ReplaceAtSnoc(t, cursor, j, c.value);
    }
  }
}
