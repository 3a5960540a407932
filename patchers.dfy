/**
 * The four version patchers over a file system: each finds its files (through the
 * globber or the simple per-filter search), and patches them one at a time in order.
 * A file that does not exist is skipped; a kind the patcher does not handle is a
 * NotSupportedException; a handled file is read in its detected encoding, rewritten
 * (line rules for source and text files, XML walks for project and nuspec files) and
 * written back over its old contents.
 */
module Patchers {
  import opened Wrappers
  import opened Versions
  import opened StreamEncoding
  import opened LineRewriting
  import opened Dialects
  import opened XmlTree
  import opened PatcherConfig
  import opened Disk

  /**
   * How bytes become lines or a document and back in a given encoding: StreamReader.ReadLine,
   * StreamWriter.WriteLine, XmlDocument.Load and XmlDocument.Save. A document that does not load
   * is an error.
   */
  datatype Codec = Codec(
    readLines: (Encoding, seq<byte>) -> seq<string>,
    writeLines: (Encoding, seq<string>) -> seq<byte>,
    loadXml: (Encoding, seq<byte>) -> Result<XNode>,
    saveXml: (Encoding, XNode) -> seq<byte>)

  /**
   * The source directory: the files Matcher finds for the include patterns (always recursive),
   * and the files DirectoryInfo.GetFiles finds for one filter, in all directories when the flag is set.
   */
  datatype SourceDirectory = SourceDirectory(
    glob: seq<string> -> seq<FileInfo>,
    search: (string, bool) -> seq<FileInfo>)

  // The patcher's configuration as values

  /** The flags of each patcher that decide what it writes. */
  datatype Settings =
    | NetFxSettings(checkUsings: bool, insert: bool)
    | NetCoreSettings(insert: bool)
    | NuspecSettings(insert: bool)
    | TextSettings

  /** The kinds PatchFile dispatches on; any other kind is refused. */
  predicate Handles(s: Settings, kind: FileDataKind) {
    match s
    case NetFxSettings(_, _) => kind == CSharp || kind == Vb || kind == Cpp
    case NetCoreSettings(_) => kind == CSharpProject || kind == VbProject
    case NuspecSettings(_) => kind == NuSpec
    case TextSettings => kind == TextFile
  }

  // Rewriting one file's contents

  /** The line rules of the .NET Framework patcher for a source file of the given kind. */
  function NetFxLines(kind: FileDataKind, lines: seq<string>, v: VersionInformation, checkUsings: bool, insert: bool): seq<string> {
    match kind
    case Vb => VbLines(lines, v, checkUsings, insert)
    case Cpp => CppLines(lines, v, checkUsings, insert)
    case _ => CSharpLines(lines, v, checkUsings, insert)
  }

  const AssemblyVersionPath := ElementPath("Project", "PropertyGroup", "AssemblyVersion")
  const FileVersionPath := ElementPath("Project", "PropertyGroup", "FileVersion")
  const InformationalVersionPath := ElementPath("Project", "PropertyGroup", "AssemblyInformationalVersion")
  const NuspecVersionPath := ElementPath("package", "metadata", "version")

  /** AppendOrUpdateXmlNode when missing elements are inserted, UpdateXmlNodeIfExists otherwise. */
  function WriteNode(doc: XNode, path: string, value: string, insert: bool): Result<XNode> {
    if insert then AppendOrUpdateXmlNode(doc, path, value) else UpdateXmlNodeIfExists(doc, path, value)
  }

  /** Three writes in order; the first failure stops the rest. */
  function WriteThree(doc: XNode, p1: string, x1: string, p2: string, x2: string, p3: string, x3: string, insert: bool): Result<XNode> {
    var d1 :- WriteNode(doc, p1, x1, insert);
    var d2 :- WriteNode(d1, p2, x2, insert);
    WriteNode(d2, p3, x3, insert)
  }

  /** The three writes of PatchProjectFile. */
  function ProjectDocument(doc: XNode, v: VersionInformation, insert: bool): Result<XNode> {
    var full := AsFullCanonicalString(v);
    WriteThree(doc, AssemblyVersionPath, full, FileVersionPath, full, InformationalVersionPath, ToString(v), insert)
  }

  /** The single write of PatchNuspecFile. */
  function NuspecDocument(doc: XNode, v: VersionInformation, insert: bool): Result<XNode> {
    WriteNode(doc, NuspecVersionPath, ToString(v), insert)
  }

  /** A nuspec file read as ASCII is written back as UTF-8; any other encoding is kept. */
  function NuspecWriteEncoding(e: Encoding): Encoding {
    if e == ASCII then UTF8 else e
  }

  /** The new contents of a file of a handled kind, read and written in the encoding guessed from its bytes. */
  function Rewrite(s: Settings, kind: FileDataKind, bytes: seq<byte>, v: VersionInformation, codec: Codec): Result<seq<byte>> {
    var enc := Guess(bytes);
    match s
    case NetFxSettings(checkUsings, insert) =>
      Ok(codec.writeLines(enc, NetFxLines(kind, codec.readLines(enc, bytes), v, checkUsings, insert)))
    case NetCoreSettings(insert) =>
      var doc :- codec.loadXml(enc, bytes);
      var patched :- ProjectDocument(doc, v, insert);
      Ok(codec.saveXml(enc, patched))
    case NuspecSettings(insert) =>
      var doc :- codec.loadXml(enc, bytes);
      var patched :- NuspecDocument(doc, v, insert);
      Ok(codec.saveXml(NuspecWriteEncoding(enc), patched))
    case TextSettings =>
      Ok(codec.writeLines(enc, TextLines(codec.readLines(enc, bytes), v)))
  }

  // Patching files in turn

  /** What a patch step reports, and the files after it. */
  datatype Step = Step(outcome: Outcome, files: map<string, seq<byte>>)

  /** Opening, rewriting and saving a file of a handled kind; nothing is written if any part fails. */
  function PatchContents(s: Settings, kind: FileDataKind, name: string, files: map<string, seq<byte>>,
                         v: VersionInformation, codec: Codec): Step {
    if name !in files then Step(Fail(FileNotFound), files)
    else match Rewrite(s, kind, files[name], v, codec)
      case Err(e) => Step(Fail(e), files)
      case Ok(bytes) => Step(Pass, files[name := bytes])
  }

  /** PatchFile: a missing file is skipped, the detected kind is dispatched, an unhandled kind is refused. */
  function PatchOne(s: Settings, detection: Option<FileInfo -> Result<FileDataKind>>, file: FileInfo,
                    files: map<string, seq<byte>>, v: VersionInformation, codec: Codec): Step {
    if !file.present then Step(Pass, files)
    else match DetectWith(detection, file)
      case Err(e) => Step(Fail(e), files)
      case Ok(kind) =>
        if !Handles(s, kind) then Step(Fail(NotSupported), files)
        else PatchContents(s, kind, file.fullName, files, v, codec)
  }

  /** The loop of Patch: each file in order, stopping at the first exception. */
  function PatchEach(s: Settings, detection: Option<FileInfo -> Result<FileDataKind>>, list: seq<FileInfo>,
                     files: map<string, seq<byte>>, v: VersionInformation, codec: Codec): Step
    decreases |list|
  {
    if list == [] then Step(Pass, files)
    else
      var first := PatchOne(s, detection, list[0], files, v, codec);
      if first.outcome.Fail? then first else PatchEach(s, detection, list[1..], first.files, v, codec)
  }

  /** GetFilesToPatch_Simple: the files of every filter in turn, duplicates kept. */
  function SimpleSearch(root: SourceDirectory, filters: seq<string>, recurse: bool): seq<FileInfo>
    decreases |filters|
  {
    if filters == [] then []
    else SimpleSearch(root, filters[..|filters| - 1], recurse) + root.search(filters[|filters| - 1], recurse)
  }

  /** The file list of Patch: the globber (which must recurse) when it is on, else the simple search. */
  function FilesToPatch(root: SourceDirectory, filters: seq<string>, recurse: bool, useGlobber: bool): Result<seq<FileInfo>> {
    if useGlobber then
      if !recurse then Err(NotSupported) else Ok(root.glob(filters))
    else Ok(SimpleSearch(root, filters, recurse))
  }

  /** Patch: find the files, then patch each of them. */
  function PatchRun(s: Settings, detection: Option<FileInfo -> Result<FileDataKind>>, found: Result<seq<FileInfo>>,
                    files: map<string, seq<byte>>, v: VersionInformation, codec: Codec): Step {
    match found
    case Err(e) => Step(Fail(e), files)
    case Ok(list) => PatchEach(s, detection, list, files, v, codec)
  }

  /** What a patcher's configuration decides before Patch runs: flags, detection, file list and codecs. */
  datatype PatchPlan = PatchPlan(settings: Settings, detection: Option<FileInfo -> Result<FileDataKind>>,
                                 found: Result<seq<FileInfo>>, codec: Codec)

  /** What Patch does to the files under a plan. */
  function PlanEffect(plan: PatchPlan, files: map<string, seq<byte>>, v: VersionInformation): Step {
    PatchRun(plan.settings, plan.detection, plan.found, files, v, plan.codec)
  }

  // The patcher objects

  /** Which VersionPatcherBase subclass the patcher is, with its configuration object. */
  datatype PatcherKind =
    | NetFxPatcher(netFx: NetFxVersionPatcherConfig)
    | NetCorePatcher(netCore: NetCoreVersionPatcherConfig)
    | NuspecPatcher(nuspec: NuspecVersionPatcherConfig)
    | TextFilePatcher(text: TextFilePatcherConfig)

  /** The configuration object of a patcher, whose flags decide what it writes. */
  function ConfigObjects(k: PatcherKind): set<object> {
    match k
    case NetFxPatcher(c) => {c}
    case NetCorePatcher(c) => {c}
    case NuspecPatcher(c) => {c}
    case TextFilePatcher(c) => {c}
  }

  /** The shared configuration of a patcher. */
  function BaseOf(k: PatcherKind): VersionPatcherConfig {
    match k
    case NetFxPatcher(c) => c.base
    case NetCorePatcher(c) => c.base
    case NuspecPatcher(c) => c.base
    case TextFilePatcher(c) => c.base
  }

  /** The current flags of a patcher's configuration. */
  function SettingsOf(k: PatcherKind): Settings
    reads ConfigObjects(k)
  {
    match k
    case NetFxPatcher(c) => NetFxSettings(c.shouldCheckUsingStatements, c.shouldInsertAttributesIfMissing)
    case NetCorePatcher(c) => NetCoreSettings(c.shouldInsertAttributesIfMissing)
    case NuspecPatcher(c) => NuspecSettings(c.shouldInsertAttributesIfMissing)
    case TextFilePatcher(_) => TextSettings
  }

  class VersionPatcher {
    const kind: PatcherKind
    const root: SourceDirectory
    const fs: FileSystem
    const codec: Codec

    constructor (kind: PatcherKind, root: SourceDirectory, fs: FileSystem, codec: Codec)
      ensures this.kind == kind && this.root == root && this.fs == fs && this.codec == codec
    {
      this.kind := kind;
      this.root := root;
      this.fs := fs;
      this.codec := codec;
    }

    function Config(): VersionPatcherConfig {
      BaseOf(kind)
    }

    /** The configuration objects whose fields decide what Patch does. */
    function Footprint(): set<object> {
      ConfigObjects(kind) + {Config()}
    }

    /** What the configuration decides for Patch: its flags, its detection, and the files it selects. */
    function Plan(): PatchPlan
      reads Footprint()
    {
      PatchPlan(SettingsOf(kind), Config().fileKindDetection,
                FilesToPatch(root, Config().Filters(), Config().shouldRecurse, Config().shouldUseGlobber), codec)
    }

    /** Patch: the globber or the simple search, as the configuration says, then every file in order. */
    method Patch(v: VersionInformation) returns (r: Outcome)
      modifies fs
      ensures Step(r, fs.files) == PlanEffect(old(Plan()), old(fs.files), v)
    {
      var files: seq<FileInfo>;
      if Config().shouldUseGlobber {
        var found := GetFilesToPatchGlobber();
        if found.Err? {
          return Fail(found.error);
        }
        files := found.value;
      } else {
        files := GetFilesToPatchSimple();
      }
      assert FilesToPatch(root, Config().Filters(), Config().shouldRecurse, Config().shouldUseGlobber) == Ok(files);
      r := PatchFiles(files, v);
    }

    /** The loop of Patch: each file in turn, stopping at the first exception. */
    method PatchFiles(files: seq<FileInfo>, v: VersionInformation) returns (r: Outcome)
      modifies fs
      ensures Step(r, fs.files) == PatchEach(SettingsOf(kind), Config().fileKindDetection, files, old(fs.files), v, codec)
    {
      ghost var s := SettingsOf(kind);
      ghost var detection := Config().fileKindDetection;
      var i := 0;
      while i < |files|
        invariant 0 <= i <= |files|
        invariant s == SettingsOf(kind) && detection == Config().fileKindDetection
        invariant PatchEach(s, detection, files[i..], fs.files, v, codec) == PatchEach(s, detection, files, old(fs.files), v, codec)
      {
        var o := PatchFile(files[i], v);
        assert files[i..][1..] == files[i + 1..];
        if o.Fail? {
          return o;
        }
        i := i + 1;
      }
      return Pass;
    }

    /** GetFilesToPatch_Simple: one search per filter, in the order of Filters. */
    method GetFilesToPatchSimple() returns (found: seq<FileInfo>)
      ensures found == SimpleSearch(root, Config().Filters(), Config().shouldRecurse)
    {
      var filters := Config().Filters();
      var recurse := Config().shouldRecurse;
      found := [];
      for i := 0 to |filters|
        invariant found == SimpleSearch(root, filters[..i], recurse)
      {
        assert filters[..i + 1][..i] == filters[..i];
        found := found + root.search(filters[i], recurse);
      }
      assert filters[..|filters|] == filters;
    }

    /** GetFilesToPatch_Globber: refused unless the search is recursive. */
    method GetFilesToPatchGlobber() returns (found: Result<seq<FileInfo>>)
      ensures !Config().shouldRecurse ==> found == Err(NotSupported)
      ensures Config().shouldRecurse ==> found == Ok(root.glob(Config().Filters()))
    {
      if !Config().shouldRecurse {
        return Err(NotSupported);
      }
      return Ok(root.glob(Config().Filters()));
    }

    /** PatchFile of the patcher's subclass. */
    method PatchFile(file: FileInfo, v: VersionInformation) returns (r: Outcome)
      modifies fs
      ensures Step(r, fs.files) == PatchOne(SettingsOf(kind), Config().fileKindDetection, file, old(fs.files), v, codec)
    {
      if !file.present {
        return Pass;
      }
      var detected := Config().DetectFileKind(file);
      if detected.Err? {
        return Fail(detected.error);
      }
      var fileKind := detected.value;
      match kind
      case NetFxPatcher(_) =>
        if fileKind == CSharp {
          r := PatchCSharpFile(file, v);
        } else if fileKind == Vb {
          r := PatchVbFile(file, v);
        } else if fileKind == Cpp {
          r := PatchCppFile(file, v);
        } else {
          r := Fail(NotSupported);
        }
      case NetCorePatcher(_) =>
        if fileKind == CSharpProject || fileKind == VbProject {
          r := PatchProjectFile(file, v);
        } else {
          r := Fail(NotSupported);
        }
      case NuspecPatcher(_) =>
        if fileKind == NuSpec {
          r := PatchNuspecFile(file, v);
        } else {
          r := Fail(NotSupported);
        }
      case TextFilePatcher(_) =>
        if fileKind == TextFile {
          r := PatchTextFile(file, v);
        } else {
          r := Fail(NotSupported);
        }
    }

    /** PatchCSharpFile: the using lines first when checked, then the attribute lines. */
    method PatchCSharpFile(file: FileInfo, v: VersionInformation) returns (r: Outcome)
      requires kind.NetFxPatcher?
      modifies fs
      ensures Step(r, fs.files) == PatchContents(SettingsOf(kind), CSharp, file.fullName, old(fs.files), v, codec)
    {
      if file.fullName !in fs.files {
        return Fail(FileNotFound);
      }
      var bytes := fs.files[file.fullName];
      var enc := GuessEncodingFor(bytes);
      var list := new LineList(codec.readLines(enc, bytes));
      ghost var start := list.lines;
      var config := kind.netFx;
      if config.shouldCheckUsingStatements {
        InsertThree(list, CSharpUsingRules());
      }
      var attributes := CSharpAttributeRules(v);
      if config.shouldInsertAttributesIfMissing {
        AppendThree(list, attributes);
      } else {
        PatchThree(list, attributes);
      }
      assert list.lines == CSharpLines(start, v, config.shouldCheckUsingStatements, config.shouldInsertAttributesIfMissing);
      fs.files := fs.files[file.fullName := codec.writeLines(enc, list.lines)];
      return Pass;
    }

    /** PatchVbFile: the Imports lines first when checked, then the attribute lines. */
    method PatchVbFile(file: FileInfo, v: VersionInformation) returns (r: Outcome)
      requires kind.NetFxPatcher?
      modifies fs
      ensures Step(r, fs.files) == PatchContents(SettingsOf(kind), Vb, file.fullName, old(fs.files), v, codec)
    {
      if file.fullName !in fs.files {
        return Fail(FileNotFound);
      }
      var bytes := fs.files[file.fullName];
      var enc := GuessEncodingFor(bytes);
      var list := new LineList(codec.readLines(enc, bytes));
      ghost var start := list.lines;
      var config := kind.netFx;
      if config.shouldCheckUsingStatements {
        InsertThree(list, VbImportRules());
      }
      var attributes := VbAttributeRules(v);
      if config.shouldInsertAttributesIfMissing {
        AppendThree(list, attributes);
      } else {
        PatchThree(list, attributes);
      }
      assert list.lines == VbLines(start, v, config.shouldCheckUsingStatements, config.shouldInsertAttributesIfMissing);
      fs.files := fs.files[file.fullName := codec.writeLines(enc, list.lines)];
      return Pass;
    }

    /** PatchCppFile: the two `using namespace` lines first when checked, then the attribute lines. */
    method PatchCppFile(file: FileInfo, v: VersionInformation) returns (r: Outcome)
      requires kind.NetFxPatcher?
      modifies fs
      ensures Step(r, fs.files) == PatchContents(SettingsOf(kind), Cpp, file.fullName, old(fs.files), v, codec)
    {
      if file.fullName !in fs.files {
        return Fail(FileNotFound);
      }
      var bytes := fs.files[file.fullName];
      var enc := GuessEncodingFor(bytes);
      var list := new LineList(codec.readLines(enc, bytes));
      ghost var start := list.lines;
      var config := kind.netFx;
      if config.shouldCheckUsingStatements {
        InsertTwo(list, CppUsingRules());
      }
      var attributes := CppAttributeRules(v);
      if config.shouldInsertAttributesIfMissing {
        AppendThree(list, attributes);
      } else {
        PatchThree(list, attributes);
      }
      assert list.lines == CppLines(start, v, config.shouldCheckUsingStatements, config.shouldInsertAttributesIfMissing);
      fs.files := fs.files[file.fullName := codec.writeLines(enc, list.lines)];
      return Pass;
    }

    /** PatchTextFile: the Version line updated, or appended when there is none. */
    method PatchTextFile(file: FileInfo, v: VersionInformation) returns (r: Outcome)
      requires kind.TextFilePatcher?
      modifies fs
      ensures Step(r, fs.files) == PatchContents(SettingsOf(kind), TextFile, file.fullName, old(fs.files), v, codec)
    {
      if file.fullName !in fs.files {
        return Fail(FileNotFound);
      }
      var bytes := fs.files[file.fullName];
      var enc := GuessEncodingFor(bytes);
      var list := new LineList(codec.readLines(enc, bytes));
      list.AppendOrUpdate(TextPattern(), TextLine(v));
      fs.files := fs.files[file.fullName := codec.writeLines(enc, list.lines)];
      return Pass;
    }

    /** PatchProjectFile: three element writes on the loaded document, then the document saved in the same encoding. */
    method PatchProjectFile(file: FileInfo, v: VersionInformation) returns (r: Outcome)
      requires kind.NetCorePatcher?
      modifies fs
      ensures Step(r, fs.files) == PatchContents(SettingsOf(kind), CSharpProject, file.fullName, old(fs.files), v, codec)
    {
      if file.fullName !in fs.files {
        return Fail(FileNotFound);
      }
      var bytes := fs.files[file.fullName];
      var enc := GuessEncodingFor(bytes);
      var loaded := codec.loadXml(enc, bytes);
      if loaded.Err? {
        return Fail(loaded.error);
      }
      var doc := new XmlDocument(loaded.value);
      var o := WriteProjectElements(doc, v);
      if o.Fail? {
        return o;
      }
      fs.files := fs.files[file.fullName := codec.saveXml(enc, doc.root)];
      return Pass;
    }

    /** PatchNuspecFile: one element write, then the document saved, as UTF-8 if it was read as ASCII. */
    method PatchNuspecFile(file: FileInfo, v: VersionInformation) returns (r: Outcome)
      requires kind.NuspecPatcher?
      modifies fs
      ensures Step(r, fs.files) == PatchContents(SettingsOf(kind), NuSpec, file.fullName, old(fs.files), v, codec)
    {
      if file.fullName !in fs.files {
        return Fail(FileNotFound);
      }
      var bytes := fs.files[file.fullName];
      var enc := GuessEncodingFor(bytes);
      var loaded := codec.loadXml(enc, bytes);
      if loaded.Err? {
        return Fail(loaded.error);
      }
      var doc := new XmlDocument(loaded.value);
      var o := WriteNuspecElement(doc, v);
      if o.Fail? {
        return o;
      }
      ghost var read := enc;
      if enc == ASCII {
        enc := UTF8;
      }
      assert enc == NuspecWriteEncoding(read);
      fs.files := fs.files[file.fullName := codec.saveXml(enc, doc.root)];
      return Pass;
    }

    /** The element writes of PatchProjectFile: created when missing if insertion is on, else only updated. */
    method WriteProjectElements(doc: XmlDocument, v: VersionInformation) returns (o: Outcome)
      requires kind.NetCorePatcher?
      modifies doc
      ensures ProjectDocument(old(doc.root), v, SettingsOf(kind).insert).Ok? ==>
                o == Pass && doc.root == ProjectDocument(old(doc.root), v, SettingsOf(kind).insert).value
      ensures ProjectDocument(old(doc.root), v, SettingsOf(kind).insert).Err? ==>
                o == Fail(ProjectDocument(old(doc.root), v, SettingsOf(kind).insert).error)
    {
      var full := AsFullCanonicalString(v);
      if kind.netCore.shouldInsertAttributesIfMissing {
        o := doc.AppendOrUpdateNode(AssemblyVersionPath, full);
        if o.Fail? {
          return o;
        }
        o := doc.AppendOrUpdateNode(FileVersionPath, full);
        if o.Fail? {
          return o;
        }
        o := doc.AppendOrUpdateNode(InformationalVersionPath, ToString(v));
      } else {
        o := doc.UpdateNodeIfExists(AssemblyVersionPath, full);
        if o.Fail? {
          return o;
        }
        o := doc.UpdateNodeIfExists(FileVersionPath, full);
        if o.Fail? {
          return o;
        }
        o := doc.UpdateNodeIfExists(InformationalVersionPath, ToString(v));
      }
    }

    /** The element write of PatchNuspecFile. */
    method WriteNuspecElement(doc: XmlDocument, v: VersionInformation) returns (o: Outcome)
      requires kind.NuspecPatcher?
      modifies doc
      ensures NuspecDocument(old(doc.root), v, SettingsOf(kind).insert).Ok? ==>
                o == Pass && doc.root == NuspecDocument(old(doc.root), v, SettingsOf(kind).insert).value
      ensures NuspecDocument(old(doc.root), v, SettingsOf(kind).insert).Err? ==>
                o == Fail(NuspecDocument(old(doc.root), v, SettingsOf(kind).insert).error)
    {
      if kind.nuspec.shouldInsertAttributesIfMissing {
        o := doc.AppendOrUpdateNode(NuspecVersionPath, ToString(v));
      } else {
        o := doc.UpdateNodeIfExists(NuspecVersionPath, ToString(v));
      }
    }
  }

  // Properties of one patch step

  /** A step writes at most the file it patches, and nothing when it fails. */
  lemma PatchOneFrame(s: Settings, detection: Option<FileInfo -> Result<FileDataKind>>, file: FileInfo,
                      files: map<string, seq<byte>>, v: VersionInformation, codec: Codec)
    ensures var r := PatchOne(s, detection, file, files, v, codec);
            r.files.Keys == files.Keys
            && (forall n :: n in files && n != file.fullName ==> r.files[n] == files[n])
            && (r.outcome.Fail? ==> r.files == files)
            && (r.files != files ==> file.present && file.fullName in files)
  {
  }

  /**
   * A file that does not exist is skipped; a detection error propagates; a kind the
   * patcher does not dispatch is a NotSupportedException; all three leave the files alone.
   */
  lemma PatchOneRefusals(s: Settings, detection: Option<FileInfo -> Result<FileDataKind>>, file: FileInfo,
                         files: map<string, seq<byte>>, v: VersionInformation, codec: Codec)
    ensures !file.present ==> PatchOne(s, detection, file, files, v, codec) == Step(Pass, files)
    ensures file.present && DetectWith(detection, file).Err? ==>
              PatchOne(s, detection, file, files, v, codec) == Step(Fail(DetectWith(detection, file).error), files)
    ensures file.present && DetectWith(detection, file).Ok? && !Handles(s, DetectWith(detection, file).value) ==>
              PatchOne(s, detection, file, files, v, codec) == Step(Fail(NotSupported), files)
  {
  }

  /** The .NET Framework patcher refuses project, nuspec and text files; the others refuse C# source files. */
  lemma RefusedKinds(checkUsings: bool, insert: bool)
    ensures forall k :: k in {TextFile, NuSpec, CSharpProject, VbProject} ==> !Handles(NetFxSettings(checkUsings, insert), k)
    ensures !Handles(NetCoreSettings(insert), CSharp) && !Handles(NuspecSettings(insert), CSharp)
    ensures !Handles(TextSettings, CSharp)
    ensures !Handles(NetCoreSettings(insert), NuSpec) && !Handles(NuspecSettings(insert), CSharpProject)
  {
  }

  // Properties of the run

  /** Patching a concatenation patches the first part, then, if nothing failed, the second from where it left off. */
  lemma {:induction false} PatchEachConcat(s: Settings, detection: Option<FileInfo -> Result<FileDataKind>>,
                                           a: seq<FileInfo>, b: seq<FileInfo>,
                                           files: map<string, seq<byte>>, v: VersionInformation, codec: Codec)
    ensures var first := PatchEach(s, detection, a, files, v, codec);
            PatchEach(s, detection, a + b, files, v, codec) ==
            (if first.outcome.Fail? then first else PatchEach(s, detection, b, first.files, v, codec))
    decreases |a|
  {
    if a != [] {
      assert (a + b)[0] == a[0];
      assert (a + b)[1..] == a[1..] + b;
      var one := PatchOne(s, detection, a[0], files, v, codec);
      if !one.outcome.Fail? {
        PatchEachConcat(s, detection, a[1..], b, one.files, v, codec);
      }
    } else {
      assert a + b == b;
    }
  }

  /** The run never adds or removes a file, and leaves every file it was not given as it was. */
  lemma {:induction false} PatchEachFrame(s: Settings, detection: Option<FileInfo -> Result<FileDataKind>>,
                                          list: seq<FileInfo>, files: map<string, seq<byte>>,
                                          v: VersionInformation, codec: Codec)
    ensures var r := PatchEach(s, detection, list, files, v, codec);
            r.files.Keys == files.Keys
            && forall n :: n in files && (forall i :: 0 <= i < |list| ==> list[i].fullName != n) ==> r.files[n] == files[n]
    decreases |list|
  {
    if list != [] {
      var one := PatchOne(s, detection, list[0], files, v, codec);
      PatchOneFrame(s, detection, list[0], files, v, codec);
      if !one.outcome.Fail? {
        PatchEachFrame(s, detection, list[1..], one.files, v, codec);
        var r := PatchEach(s, detection, list, files, v, codec);
        forall n | n in files && (forall i :: 0 <= i < |list| ==> list[i].fullName != n)
          ensures r.files[n] == files[n]
        {
          assert list[0].fullName != n;
          assert forall i :: 0 <= i < |list[1..]| ==> list[1..][i].fullName == list[i + 1].fullName;
        }
      }
    }
  }

  /** A list of files none of which exists changes nothing and raises nothing. */
  lemma {:induction false} PatchEachAllMissing(s: Settings, detection: Option<FileInfo -> Result<FileDataKind>>,
                                               list: seq<FileInfo>, files: map<string, seq<byte>>,
                                               v: VersionInformation, codec: Codec)
    requires forall i :: 0 <= i < |list| ==> !list[i].present
    ensures PatchEach(s, detection, list, files, v, codec) == Step(Pass, files)
    decreases |list|
  {
    if list != [] {
      assert !list[0].present;
      PatchEachAllMissing(s, detection, list[1..], files, v, codec);
    }
  }

  /** The globber with recursion switched off is a NotSupportedException before any file is touched. */
  lemma GlobberNeedsRecursion(s: Settings, detection: Option<FileInfo -> Result<FileDataKind>>, root: SourceDirectory,
                              filters: seq<string>, files: map<string, seq<byte>>, v: VersionInformation, codec: Codec)
    ensures FilesToPatch(root, filters, false, true) == Err(NotSupported)
    ensures PatchRun(s, detection, FilesToPatch(root, filters, false, true), files, v, codec) == Step(Fail(NotSupported), files)
  {
  }

  /** The simple search of a + b is the search of a followed by the search of b. */
  lemma {:induction false} SimpleSearchConcat(root: SourceDirectory, a: seq<string>, b: seq<string>, recurse: bool)
    ensures SimpleSearch(root, a + b, recurse) == SimpleSearch(root, a, recurse) + SimpleSearch(root, b, recurse)
    decreases |b|
  {
    if b == [] {
      assert a + b == a;
    } else {
      var last := b[|b| - 1];
      assert (a + b)[..|a + b| - 1] == a + b[..|b| - 1];
      assert (a + b)[|a + b| - 1] == last;
      SimpleSearchConcat(root, a, b[..|b| - 1], recurse);
    }
  }

  /** A filter named twice finds its files twice. */
  lemma SimpleSearchKeepsDuplicates(root: SourceDirectory, filter: string, recurse: bool)
    ensures SimpleSearch(root, [filter, filter], recurse) == root.search(filter, recurse) + root.search(filter, recurse)
  {
    assert [filter, filter][..1] == [filter];
    assert [filter][..0] == [];
    assert SimpleSearch(root, [filter], recurse) == root.search(filter, recurse);
  }

  // Properties of the element writes

  lemma ProjectNames()
    ensures IsSegment("Project") && IsSegment("PropertyGroup")
    ensures IsSegment("AssemblyVersion") && IsSegment("FileVersion") && IsSegment("AssemblyInformationalVersion")
  {
  }

  lemma NuspecNames()
    ensures IsSegment("package") && IsSegment("metadata") && IsSegment("version")
  {
  }

  /** The element paths split into their three names. */
  lemma ProjectPaths()
    ensures PathSegments(AssemblyVersionPath) == ["Project", "PropertyGroup", "AssemblyVersion"]
    ensures PathSegments(FileVersionPath) == ["Project", "PropertyGroup", "FileVersion"]
    ensures PathSegments(InformationalVersionPath) == ["Project", "PropertyGroup", "AssemblyInformationalVersion"]
  {
    ProjectNames();
    ElementPathSegments("Project", "PropertyGroup", "AssemblyVersion");
    ElementPathSegments("Project", "PropertyGroup", "FileVersion");
    ElementPathSegments("Project", "PropertyGroup", "AssemblyInformationalVersion");
  }

  lemma NuspecPath()
    ensures PathSegments(NuspecVersionPath) == ["package", "metadata", "version"]
  {
    NuspecNames();
    ElementPathSegments("package", "metadata", "version");
  }

  /** Updating three paths raises nothing, and changes nothing when none of them can be looked up. */
  lemma UpdateThree(doc: XNode, p1: string, x1: string, p2: string, x2: string, p3: string, x3: string)
    requires PathSegments(p1) != [] && PathSegments(p2) != [] && PathSegments(p3) != []
    ensures WriteThree(doc, p1, x1, p2, x2, p3, x3, false).Ok?
    ensures (Lookup(doc, PathSegments(p1), 0).None? && Lookup(doc, PathSegments(p2), 0).None?
             && Lookup(doc, PathSegments(p3), 0).None?) ==> WriteThree(doc, p1, x1, p2, x2, p3, x3, false) == Ok(doc)
  {
    UpdateXmlNodeIfExistsCases(doc, p1, x1);
    var d1 := UpdateXmlNodeIfExists(doc, p1, x1).value;
    UpdateXmlNodeIfExistsCases(d1, p2, x2);
    var d2 := UpdateXmlNodeIfExists(d1, p2, x2).value;
    UpdateXmlNodeIfExistsCases(d2, p3, x3);
  }

  /** Without insertion the project writes never raise, and a document holding none of the three elements is left as it was. */
  lemma ProjectUpdateOnly(doc: XNode, v: VersionInformation)
    ensures ProjectDocument(doc, v, false).Ok?
    ensures (Lookup(doc, ["Project", "PropertyGroup", "AssemblyVersion"], 0).None?
             && Lookup(doc, ["Project", "PropertyGroup", "FileVersion"], 0).None?
             && Lookup(doc, ["Project", "PropertyGroup", "AssemblyInformationalVersion"], 0).None?)
            ==> ProjectDocument(doc, v, false) == Ok(doc)
  {
    ProjectPaths();
    var full := AsFullCanonicalString(v);
    UpdateThree(doc, AssemblyVersionPath, full, FileVersionPath, full, InformationalVersionPath, ToString(v));
  }

  /** With insertion, a successful run leaves the informational version readable at its path. */
  lemma ProjectInsertReadsInformational(doc: XNode, v: VersionInformation)
    requires ProjectDocument(doc, v, true).Ok?
    ensures var d := ProjectDocument(doc, v, true).value;
            Lookup(d, ["Project", "PropertyGroup", "AssemblyInformationalVersion"], 0).Some?
            && InnerText(Lookup(d, ["Project", "PropertyGroup", "AssemblyInformationalVersion"], 0).value) == ToString(v)
  {
    ProjectPaths();
    var full := AsFullCanonicalString(v);
    var d1 := AppendOrUpdateXmlNode(doc, AssemblyVersionPath, full).value;
    var d2 := AppendOrUpdateXmlNode(d1, FileVersionPath, full).value;
    AppendOrUpdateXmlNodeReads(d2, InformationalVersionPath, ToString(v));
  }

  /** With insertion, a successful nuspec write leaves the version readable at /package/metadata/version. */
  lemma NuspecInsertReads(doc: XNode, v: VersionInformation)
    requires NuspecDocument(doc, v, true).Ok?
    ensures var d := NuspecDocument(doc, v, true).value;
            Lookup(d, ["package", "metadata", "version"], 0).Some?
            && InnerText(Lookup(d, ["package", "metadata", "version"], 0).value) == ToString(v)
  {
    NuspecPath();
    AppendOrUpdateXmlNodeReads(doc, NuspecVersionPath, ToString(v));
  }

  /** Without insertion the nuspec write raises nothing, and a missing version element stays missing. */
  lemma NuspecUpdateKeeps(doc: XNode, v: VersionInformation)
    ensures NuspecDocument(doc, v, false).Ok?
    ensures Lookup(doc, ["package", "metadata", "version"], 0).None? ==> NuspecDocument(doc, v, false) == Ok(doc)
  {
    NuspecPath();
    UpdateXmlNodeIfExistsCases(doc, NuspecVersionPath, ToString(v));
  }

  /** A file read as ASCII is saved as UTF-8 by the nuspec patcher, but as ASCII by the project patcher. */
  lemma AsciiNuspecSavedAsUtf8(bytes: seq<byte>, v: VersionInformation, insert: bool, codec: Codec, doc: XNode)
    requires Guess(bytes) == ASCII && codec.loadXml(ASCII, bytes) == Ok(doc)
    ensures NuspecDocument(doc, v, insert).Ok? ==>
              Rewrite(NuspecSettings(insert), NuSpec, bytes, v, codec) == Ok(codec.saveXml(UTF8, NuspecDocument(doc, v, insert).value))
    ensures ProjectDocument(doc, v, insert).Ok? ==>
              Rewrite(NetCoreSettings(insert), CSharpProject, bytes, v, codec) == Ok(codec.saveXml(ASCII, ProjectDocument(doc, v, insert).value))
  {
  }

  /** The codec reads back the lines it writes, from bytes guessed as the encoding they were written in. */
  predicate LinesRoundTrip(codec: Codec, e: Encoding, lines: seq<string>) {
    var bytes := codec.writeLines(e, lines);
    Guess(bytes) == e && codec.readLines(e, bytes) == lines
  }

  /** Patching a text file a second time leaves it as the first time did, when the codec reads back what it wrote. */
  lemma TextFilePatchedOnce(name: string, files: map<string, seq<byte>>, v: VersionInformation, codec: Codec)
    requires SingleLine(v) && name in files
    requires var e := Guess(files[name]); LinesRoundTrip(codec, e, TextLines(codec.readLines(e, files[name]), v))
    ensures var once := PatchContents(TextSettings, TextFile, name, files, v, codec);
            once.outcome == Pass && PatchContents(TextSettings, TextFile, name, once.files, v, codec) == once
  {
    var e := Guess(files[name]);
    TextLinesIdempotent(codec.readLines(e, files[name]), v);
  }

  // The fixed runs of calls on a list of lines

  /** Three InsertOrUpdateRegexString calls. */
  method InsertThree(list: LineList, rules: seq<Rule>)
    requires |rules| == 3
    modifies list
    ensures list.lines == InsertAll(old(list.lines), rules)
  {
    ghost var start := list.lines;
    list.InsertOrUpdate(rules[0].pattern, rules[0].replacement);
    list.InsertOrUpdate(rules[1].pattern, rules[1].replacement);
    list.InsertOrUpdate(rules[2].pattern, rules[2].replacement);
    InsertAllThree(start, rules);
  }

  /** Two InsertOrUpdateRegexString calls. */
  method InsertTwo(list: LineList, rules: seq<Rule>)
    requires |rules| == 2
    modifies list
    ensures list.lines == InsertAll(old(list.lines), rules)
  {
    ghost var start := list.lines;
    list.InsertOrUpdate(rules[0].pattern, rules[0].replacement);
    list.InsertOrUpdate(rules[1].pattern, rules[1].replacement);
    InsertAllTwo(start, rules);
  }

  /** Three AppendOrUpdateRegexString calls. */
  method AppendThree(list: LineList, rules: seq<Rule>)
    requires |rules| == 3
    modifies list
    ensures list.lines == AppendAll(old(list.lines), rules)
  {
    ghost var start := list.lines;
    list.AppendOrUpdate(rules[0].pattern, rules[0].replacement);
    list.AppendOrUpdate(rules[1].pattern, rules[1].replacement);
    list.AppendOrUpdate(rules[2].pattern, rules[2].replacement);
    AppendAllThree(start, rules);
  }

  /** Three PatchLinesIfRegexMatches calls. */
  method PatchThree(list: LineList, rules: seq<Rule>)
    requires |rules| == 3
    modifies list
    ensures list.lines == PatchAll(old(list.lines), rules)
  {
    ghost var start := list.lines;
    var _ := list.PatchLinesIfMatches(rules[0].pattern, rules[0].replacement);
    var _ := list.PatchLinesIfMatches(rules[1].pattern, rules[1].replacement);
    var _ := list.PatchLinesIfMatches(rules[2].pattern, rules[2].replacement);
    PatchAllThree(start, rules);
  }

  // Unrolling the folds for the fixed runs of calls

  lemma InsertAllTwo(lines: seq<string>, rules: seq<Rule>)
    requires |rules| == 2
    ensures InsertAll(lines, rules) ==
            InsertedOrUpdated(InsertedOrUpdated(lines, rules[0].pattern, rules[0].replacement),
                              rules[1].pattern, rules[1].replacement)
  {
    var l1 := InsertedOrUpdated(lines, rules[0].pattern, rules[0].replacement);
    var l2 := InsertedOrUpdated(l1, rules[1].pattern, rules[1].replacement);
    assert InsertAll(l2, rules[1..][1..]) == l2;
    assert InsertAll(l1, rules[1..]) == l2;
  }

  lemma InsertAllThree(lines: seq<string>, rules: seq<Rule>)
    requires |rules| == 3
    ensures InsertAll(lines, rules) ==
            InsertedOrUpdated(InsertedOrUpdated(InsertedOrUpdated(lines, rules[0].pattern, rules[0].replacement),
                                                rules[1].pattern, rules[1].replacement),
                              rules[2].pattern, rules[2].replacement)
  {
    var l1 := InsertedOrUpdated(lines, rules[0].pattern, rules[0].replacement);
    InsertAllTwo(l1, rules[1..]);
  }

  lemma AppendAllTwo(lines: seq<string>, rules: seq<Rule>)
    requires |rules| == 2
    ensures AppendAll(lines, rules) ==
            AppendedOrUpdated(AppendedOrUpdated(lines, rules[0].pattern, rules[0].replacement),
                              rules[1].pattern, rules[1].replacement)
  {
    var l1 := AppendedOrUpdated(lines, rules[0].pattern, rules[0].replacement);
    var l2 := AppendedOrUpdated(l1, rules[1].pattern, rules[1].replacement);
    assert AppendAll(l2, rules[1..][1..]) == l2;
    assert AppendAll(l1, rules[1..]) == l2;
  }

  lemma AppendAllThree(lines: seq<string>, rules: seq<Rule>)
    requires |rules| == 3
    ensures AppendAll(lines, rules) ==
            AppendedOrUpdated(AppendedOrUpdated(AppendedOrUpdated(lines, rules[0].pattern, rules[0].replacement),
                                                rules[1].pattern, rules[1].replacement),
                              rules[2].pattern, rules[2].replacement)
  {
    var l1 := AppendedOrUpdated(lines, rules[0].pattern, rules[0].replacement);
    AppendAllTwo(l1, rules[1..]);
  }

  lemma PatchAllTwo(lines: seq<string>, rules: seq<Rule>)
    requires |rules| == 2
    ensures PatchAll(lines, rules) ==
            PatchedLines(PatchedLines(lines, rules[0].pattern, rules[0].replacement),
                         rules[1].pattern, rules[1].replacement)
  {
    var l1 := PatchedLines(lines, rules[0].pattern, rules[0].replacement);
    var l2 := PatchedLines(l1, rules[1].pattern, rules[1].replacement);
    assert PatchAll(l2, rules[1..][1..]) == l2;
    assert PatchAll(l1, rules[1..]) == l2;
  }

  lemma PatchAllThree(lines: seq<string>, rules: seq<Rule>)
    requires |rules| == 3
    ensures PatchAll(lines, rules) ==
            PatchedLines(PatchedLines(PatchedLines(lines, rules[0].pattern, rules[0].replacement),
                                      rules[1].pattern, rules[1].replacement),
                         rules[2].pattern, rules[2].replacement)
  {
    var l1 := PatchedLines(lines, rules[0].pattern, rules[0].replacement);
    PatchAllTwo(l1, rules[1..]);
  }
}
