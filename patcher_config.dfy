/**
 * The configuration objects of the patchers: three filter lists (globber patterns,
 * wildcard patterns for the simple search, and custom filters), the recursion and
 * globber flags, an optional file-kind detection function, and per patcher the flags
 * that decide which lines or elements are written. A derived configuration owns its
 * shared part as the object `base`.
 */
module PatcherConfig {
  import opened Wrappers
  import opened Text

  /** The kinds of file a patcher can be asked to patch. */
  datatype FileDataKind = CSharp | Vb | Cpp | TextFile | NuSpec | CSharpProject | VbProject

  /** What the patchers read of a FileInfo: its full name, its extension and whether it exists. */
  datatype FileInfo = FileInfo(fullName: string, extension: string, present: bool)

  /** The extension that GetFileDataKindByExtension maps to each kind. */
  function ExtensionOf(kind: FileDataKind): string {
    match kind
    case CSharp => ".cs"
    case Vb => ".vb"
    case Cpp => ".cpp"
    case TextFile => ".txt"
    case NuSpec => ".nuspec"
    case CSharpProject => ".csproj"
    case VbProject => ".vbproj"
  }

  /**
   * GetFileDataKindByExtension: the seven extensions, compared case-insensitively;
   * anything else is a NotSupportedException.
   */
  function KindByExtension(extension: string): (r: Result<FileDataKind>)
    ensures r.Ok? ==> EqualsIgnoreCase(extension, ExtensionOf(r.value))
    ensures r.Err? ==> r.error == NotSupported
    ensures r.Err? ==> forall kind :: !EqualsIgnoreCase(extension, ExtensionOf(kind))
  {
    if EqualsIgnoreCase(extension, ".cs") then Ok(CSharp)
    else if EqualsIgnoreCase(extension, ".vb") then Ok(Vb)
    else if EqualsIgnoreCase(extension, ".cpp") then Ok(Cpp)
    else if EqualsIgnoreCase(extension, ".txt") then Ok(TextFile)
    else if EqualsIgnoreCase(extension, ".nuspec") then Ok(NuSpec)
    else if EqualsIgnoreCase(extension, ".csproj") then Ok(CSharpProject)
    else if EqualsIgnoreCase(extension, ".vbproj") then Ok(VbProject)
    else Err(NotSupported)
  }

  /** Every kind's own extension maps back to that kind, in any letter case. */
  lemma KindOfExtensionOf(kind: FileDataKind, extension: string)
    requires EqualsIgnoreCase(extension, ExtensionOf(kind))
    ensures KindByExtension(extension) == Ok(kind)
  {
    var e := ExtensionOf(kind);
    assert ToLower(extension[1]) == ToLower(e[1]);
    if |e| > 2 {
      assert ToLower(extension[2]) == ToLower(e[2]);
    }
  }

  /** ".CS" is C#, ".VbProj" is a VB project, and ".json" is not supported. */
  lemma ExtensionExamples()
    ensures KindByExtension(".CS") == Ok(CSharp)
    ensures KindByExtension(".VbProj") == Ok(VbProject)
    ensures KindByExtension(".json") == Err(NotSupported)
  {
    KindOfExtensionOf(CSharp, ".CS");
    KindOfExtensionOf(VbProject, ".VbProj");
  }

  /** The kind of a file under a configured detection function, or under the extension map when none is set. */
  function DetectWith(detection: Option<FileInfo -> Result<FileDataKind>>, file: FileInfo): Result<FileDataKind> {
    match detection
    case Some(detect) => detect(file)
    case None => KindByExtension(file.extension)
  }

  /** The state every patcher configuration shares. */
  class VersionPatcherConfig {
    var globberFilterList: seq<string>
    var wildcardFilterList: seq<string>
    var customFilterList: seq<string>
    var shouldRecurse: bool
    var shouldUseGlobber: bool
    var fileKindDetection: Option<FileInfo -> Result<FileDataKind>>

    /** Recursive, globber on, no filters and no detection function. */
    constructor ()
      ensures globberFilterList == [] && wildcardFilterList == [] && customFilterList == []
      ensures shouldRecurse && shouldUseGlobber && fileKindDetection.None?
    {
      globberFilterList := [];
      wildcardFilterList := [];
      customFilterList := [];
      shouldRecurse := true;
      shouldUseGlobber := true;
      fileKindDetection := Option.None;
    }

    /** Filters: the globber or the wildcard list, as the flag says, then the custom list. */
    function Filters(): seq<string>
      reads this
    {
      (if shouldUseGlobber then globberFilterList else wildcardFilterList) + customFilterList
    }

    /** AddCustomFilter: a blank filter is an ArgumentException and nothing is added. */
    method AddCustomFilter(filter: string) returns (r: Outcome)
      modifies this
      ensures IsBlank(filter) ==> r == Fail(Argument) && customFilterList == old(customFilterList)
      ensures !IsBlank(filter) ==> r == Pass && customFilterList == old(customFilterList) + [filter]
      ensures globberFilterList == old(globberFilterList) && wildcardFilterList == old(wildcardFilterList)
      ensures shouldRecurse == old(shouldRecurse) && shouldUseGlobber == old(shouldUseGlobber)
      ensures fileKindDetection == old(fileKindDetection)
    {
      if IsBlank(filter) {
        return Fail(Argument);
      }
      customFilterList := customFilterList + [filter];
      return Pass;
    }

    /**
     * The foreach every WithFilters runs: each filter goes through AddCustomFilter in
     * order, so a blank one throws after the filters before it were added.
     */
    method AddCustomFilters(filters: seq<string>) returns (r: Outcome)
      modifies this
      ensures r.Pass? <==> forall i :: 0 <= i < |filters| ==> !IsBlank(filters[i])
      ensures r.Pass? ==> customFilterList == old(customFilterList) + filters
      ensures r.Fail? ==> r.error == Argument
      ensures r.Fail? ==> exists k: nat :: FirstBlankAt(filters, k) && customFilterList == old(customFilterList) + filters[..k]
      ensures globberFilterList == old(globberFilterList) && wildcardFilterList == old(wildcardFilterList)
      ensures shouldRecurse == old(shouldRecurse) && shouldUseGlobber == old(shouldUseGlobber)
      ensures fileKindDetection == old(fileKindDetection)
    {
      var i := 0;
      while i < |filters|
        invariant 0 <= i <= |filters|
        invariant forall j :: 0 <= j < i ==> !IsBlank(filters[j])
        invariant customFilterList == old(customFilterList) + filters[..i]
        invariant globberFilterList == old(globberFilterList) && wildcardFilterList == old(wildcardFilterList)
        invariant shouldRecurse == old(shouldRecurse) && shouldUseGlobber == old(shouldUseGlobber)
        invariant fileKindDetection == old(fileKindDetection)
      {
        r := AddCustomFilter(filters[i]);
        if r.Fail? {
          assert FirstBlankAt(filters, i);
          return;
        }
        assert filters[..i + 1] == filters[..i] + [filters[i]];
        i := i + 1;
      }
      assert filters[..i] == filters;
      return Pass;
    }

    method Recursive()
      modifies this
      ensures shouldRecurse
      ensures shouldUseGlobber == old(shouldUseGlobber) && fileKindDetection == old(fileKindDetection)
      ensures globberFilterList == old(globberFilterList) && wildcardFilterList == old(wildcardFilterList)
      ensures customFilterList == old(customFilterList)
    {
      shouldRecurse := true;
    }

    method NonRecursive()
      modifies this
      ensures !shouldRecurse
      ensures shouldUseGlobber == old(shouldUseGlobber) && fileKindDetection == old(fileKindDetection)
      ensures globberFilterList == old(globberFilterList) && wildcardFilterList == old(wildcardFilterList)
      ensures customFilterList == old(customFilterList)
    {
      shouldRecurse := false;
    }

    /** Switching the globber on keeps both lists, so Filters is the globber list again. */
    method EnableGlobber()
      modifies this
      ensures shouldUseGlobber && Filters() == globberFilterList + customFilterList
      ensures shouldRecurse == old(shouldRecurse) && fileKindDetection == old(fileKindDetection)
      ensures globberFilterList == old(globberFilterList) && wildcardFilterList == old(wildcardFilterList)
      ensures customFilterList == old(customFilterList)
    {
      shouldUseGlobber := true;
    }

    /** Switching the globber off keeps both lists, so Filters is the wildcard list. */
    method DisableGlobber()
      modifies this
      ensures !shouldUseGlobber && Filters() == wildcardFilterList + customFilterList
      ensures shouldRecurse == old(shouldRecurse) && fileKindDetection == old(fileKindDetection)
      ensures globberFilterList == old(globberFilterList) && wildcardFilterList == old(wildcardFilterList)
      ensures customFilterList == old(customFilterList)
    {
      shouldUseGlobber := false;
    }

    /** DetectFileKindByExtension: the extension map becomes the detection function. */
    method DetectFileKindByExtension()
      modifies this
      ensures fileKindDetection.Some?
      ensures forall file :: DetectFileKind(file) == KindByExtension(file.extension)
      ensures shouldRecurse == old(shouldRecurse) && shouldUseGlobber == old(shouldUseGlobber)
      ensures globberFilterList == old(globberFilterList) && wildcardFilterList == old(wildcardFilterList)
      ensures customFilterList == old(customFilterList)
    {
      fileKindDetection := Some((file: FileInfo) => KindByExtension(file.extension));
    }

    method DetectFileKindWithFunc(func: FileInfo -> Result<FileDataKind>)
      modifies this
      ensures fileKindDetection == Some(func)
      ensures shouldRecurse == old(shouldRecurse) && shouldUseGlobber == old(shouldUseGlobber)
      ensures globberFilterList == old(globberFilterList) && wildcardFilterList == old(wildcardFilterList)
      ensures customFilterList == old(customFilterList)
    {
      fileKindDetection := Some(func);
    }

    /** DetectFileKind: the detection function when one is set, else the extension map. */
    function DetectFileKind(file: FileInfo): Result<FileDataKind>
      reads this
    {
      DetectWith(fileKindDetection, file)
    }

    /** The three lists emptied, as every ClearFilters does. */
    method ClearLists()
      modifies this
      ensures globberFilterList == [] && wildcardFilterList == [] && customFilterList == []
      ensures Filters() == []
      ensures shouldRecurse == old(shouldRecurse) && shouldUseGlobber == old(shouldUseGlobber)
      ensures fileKindDetection == old(fileKindDetection)
    {
      globberFilterList := [];
      wildcardFilterList := [];
      customFilterList := [];
    }

    /** The built-in filters of a dialect added to the globber and wildcard lists. */
    method AddBuiltInFilters(globber: seq<string>, wildcard: seq<string>)
      modifies this
      ensures globberFilterList == old(globberFilterList) + globber
      ensures wildcardFilterList == old(wildcardFilterList) + wildcard
      ensures customFilterList == old(customFilterList)
      ensures shouldRecurse == old(shouldRecurse) && shouldUseGlobber == old(shouldUseGlobber)
      ensures fileKindDetection == old(fileKindDetection)
    {
      globberFilterList := globberFilterList + globber;
      wildcardFilterList := wildcardFilterList + wildcard;
    }
  }

  /** k is the first index of a blank filter. */
  predicate FirstBlankAt(filters: seq<string>, k: nat) {
    k < |filters| && IsBlank(filters[k]) && forall j :: 0 <= j < k ==> !IsBlank(filters[j])
  }

  /** Only one index can be the first blank one. */
  lemma FirstBlankUnique(filters: seq<string>, k: nat, m: nat)
    requires FirstBlankAt(filters, k) && FirstBlankAt(filters, m)
    ensures k == m
  {
  }

  /** The .NET Framework patcher's configuration. */
  class NetFxVersionPatcherConfig {
    const base: VersionPatcherConfig
    var shouldInsertAttributesIfMissing: bool
    var shouldCheckUsingStatements: bool

    /** Both flags on, no filters, recursive, globber on. */
    constructor ()
      ensures fresh(base) && shouldInsertAttributesIfMissing && shouldCheckUsingStatements
      ensures base.globberFilterList == [] && base.wildcardFilterList == [] && base.customFilterList == []
      ensures base.shouldRecurse && base.shouldUseGlobber && base.fileKindDetection.None?
    {
      base := new VersionPatcherConfig();
      shouldInsertAttributesIfMissing := true;
      shouldCheckUsingStatements := true;
    }

    method InsertAttributesIfMissing()
      modifies this
      ensures shouldInsertAttributesIfMissing && shouldCheckUsingStatements == old(shouldCheckUsingStatements)
    {
      shouldInsertAttributesIfMissing := true;
    }

    method IgnoreMissingAttributes()
      modifies this
      ensures !shouldInsertAttributesIfMissing && shouldCheckUsingStatements == old(shouldCheckUsingStatements)
    {
      shouldInsertAttributesIfMissing := false;
    }

    method CheckUsingStatements()
      modifies this
      ensures shouldCheckUsingStatements && shouldInsertAttributesIfMissing == old(shouldInsertAttributesIfMissing)
    {
      shouldCheckUsingStatements := true;
    }

    method IgnoreUsingStatements()
      modifies this
      ensures !shouldCheckUsingStatements && shouldInsertAttributesIfMissing == old(shouldInsertAttributesIfMissing)
    {
      shouldCheckUsingStatements := false;
    }

    method PatchCSharpProjects()
      modifies base
      ensures base.globberFilterList == old(base.globberFilterList) + ["**/Properties/AssemblyInfo.cs"]
      ensures base.wildcardFilterList == old(base.wildcardFilterList) + ["AssemblyInfo.cs"]
      ensures base.customFilterList == old(base.customFilterList)
      ensures base.shouldRecurse == old(base.shouldRecurse) && base.shouldUseGlobber == old(base.shouldUseGlobber)
      ensures base.fileKindDetection == old(base.fileKindDetection)
    {
      base.AddBuiltInFilters(["**/Properties/AssemblyInfo.cs"], ["AssemblyInfo.cs"]);
    }

    method PatchVbProjects()
      modifies base
      ensures base.globberFilterList
           == old(base.globberFilterList) + ["**/Properties/AssemblyInfo.vb", "**/My Project/AssemblyInfo.vb"]
      ensures base.wildcardFilterList == old(base.wildcardFilterList) + ["AssemblyInfo.vb"]
      ensures base.customFilterList == old(base.customFilterList)
      ensures base.shouldRecurse == old(base.shouldRecurse) && base.shouldUseGlobber == old(base.shouldUseGlobber)
      ensures base.fileKindDetection == old(base.fileKindDetection)
    {
      base.AddBuiltInFilters(["**/Properties/AssemblyInfo.vb", "**/My Project/AssemblyInfo.vb"], ["AssemblyInfo.vb"]);
    }

    method WithFilters(filters: seq<string>) returns (r: Outcome)
      modifies base
      ensures r.Pass? <==> forall i :: 0 <= i < |filters| ==> !IsBlank(filters[i])
      ensures r.Pass? ==> base.customFilterList == old(base.customFilterList) + filters
      ensures r.Fail? ==> r.error == Argument
      ensures r.Fail? ==> exists k: nat :: FirstBlankAt(filters, k) && base.customFilterList == old(base.customFilterList) + filters[..k]
      ensures base.globberFilterList == old(base.globberFilterList)
      ensures base.wildcardFilterList == old(base.wildcardFilterList)
      ensures base.shouldRecurse == old(base.shouldRecurse) && base.shouldUseGlobber == old(base.shouldUseGlobber)
      ensures base.fileKindDetection == old(base.fileKindDetection)
    {
      r := base.AddCustomFilters(filters);
    }

    method WithCustomFilter(filter: string) returns (r: Outcome)
      modifies base
      ensures IsBlank(filter) ==> r == Fail(Argument) && base.customFilterList == old(base.customFilterList)
      ensures !IsBlank(filter) ==> r == Pass && base.customFilterList == old(base.customFilterList) + [filter]
      ensures base.globberFilterList == old(base.globberFilterList)
      ensures base.wildcardFilterList == old(base.wildcardFilterList)
      ensures base.shouldRecurse == old(base.shouldRecurse) && base.shouldUseGlobber == old(base.shouldUseGlobber)
      ensures base.fileKindDetection == old(base.fileKindDetection)
    {
      r := base.AddCustomFilter(filter);
    }

    method ClearFilters()
      modifies base
      ensures base.globberFilterList == [] && base.wildcardFilterList == [] && base.customFilterList == []
      ensures base.shouldRecurse == old(base.shouldRecurse) && base.shouldUseGlobber == old(base.shouldUseGlobber)
      ensures base.fileKindDetection == old(base.fileKindDetection)
    {
      base.ClearLists();
    }
  }

  /** The SDK-style project patcher's configuration. */
  class NetCoreVersionPatcherConfig {
    const base: VersionPatcherConfig
    var shouldInsertAttributesIfMissing: bool

    constructor ()
      ensures fresh(base) && shouldInsertAttributesIfMissing
      ensures base.globberFilterList == [] && base.wildcardFilterList == [] && base.customFilterList == []
      ensures base.shouldRecurse && base.shouldUseGlobber && base.fileKindDetection.None?
    {
      base := new VersionPatcherConfig();
      shouldInsertAttributesIfMissing := true;
    }

    method InsertAttributesIfMissing()
      modifies this
      ensures shouldInsertAttributesIfMissing
    {
      shouldInsertAttributesIfMissing := true;
    }

    method IgnoreMissingAttributes()
      modifies this
      ensures !shouldInsertAttributesIfMissing
    {
      shouldInsertAttributesIfMissing := false;
    }

    method PatchCSharpProjects()
      modifies base
      ensures base.globberFilterList == old(base.globberFilterList) + ["**/*.csproj"]
      ensures base.wildcardFilterList == old(base.wildcardFilterList) + ["*.csproj"]
      ensures base.customFilterList == old(base.customFilterList)
      ensures base.shouldRecurse == old(base.shouldRecurse) && base.shouldUseGlobber == old(base.shouldUseGlobber)
      ensures base.fileKindDetection == old(base.fileKindDetection)
    {
      base.AddBuiltInFilters(["**/*.csproj"], ["*.csproj"]);
    }

    method PatchVbProjects()
      modifies base
      ensures base.globberFilterList == old(base.globberFilterList) + ["**/*.vbproj"]
      ensures base.wildcardFilterList == old(base.wildcardFilterList) + ["*.vbproj"]
      ensures base.customFilterList == old(base.customFilterList)
      ensures base.shouldRecurse == old(base.shouldRecurse) && base.shouldUseGlobber == old(base.shouldUseGlobber)
      ensures base.fileKindDetection == old(base.fileKindDetection)
    {
      base.AddBuiltInFilters(["**/*.vbproj"], ["*.vbproj"]);
    }

    method WithFilters(filters: seq<string>) returns (r: Outcome)
      modifies base
      ensures r.Pass? <==> forall i :: 0 <= i < |filters| ==> !IsBlank(filters[i])
      ensures r.Pass? ==> base.customFilterList == old(base.customFilterList) + filters
      ensures r.Fail? ==> r.error == Argument
      ensures r.Fail? ==> exists k: nat :: FirstBlankAt(filters, k) && base.customFilterList == old(base.customFilterList) + filters[..k]
      ensures base.globberFilterList == old(base.globberFilterList)
      ensures base.wildcardFilterList == old(base.wildcardFilterList)
      ensures base.shouldRecurse == old(base.shouldRecurse) && base.shouldUseGlobber == old(base.shouldUseGlobber)
      ensures base.fileKindDetection == old(base.fileKindDetection)
    {
      r := base.AddCustomFilters(filters);
    }

    method WithCustomFilter(filter: string) returns (r: Outcome)
      modifies base
      ensures IsBlank(filter) ==> r == Fail(Argument) && base.customFilterList == old(base.customFilterList)
      ensures !IsBlank(filter) ==> r == Pass && base.customFilterList == old(base.customFilterList) + [filter]
      ensures base.globberFilterList == old(base.globberFilterList)
      ensures base.wildcardFilterList == old(base.wildcardFilterList)
      ensures base.shouldRecurse == old(base.shouldRecurse) && base.shouldUseGlobber == old(base.shouldUseGlobber)
      ensures base.fileKindDetection == old(base.fileKindDetection)
    {
      r := base.AddCustomFilter(filter);
    }

    method ClearFilters()
      modifies base
      ensures base.globberFilterList == [] && base.wildcardFilterList == [] && base.customFilterList == []
      ensures base.shouldRecurse == old(base.shouldRecurse) && base.shouldUseGlobber == old(base.shouldUseGlobber)
      ensures base.fileKindDetection == old(base.fileKindDetection)
    {
      base.ClearLists();
    }
  }

  /** The NuGet specification patcher's configuration. */
  class NuspecVersionPatcherConfig {
    const base: VersionPatcherConfig
    var shouldInsertAttributesIfMissing: bool

    constructor ()
      ensures fresh(base) && shouldInsertAttributesIfMissing
      ensures base.globberFilterList == [] && base.wildcardFilterList == [] && base.customFilterList == []
      ensures base.shouldRecurse && base.shouldUseGlobber && base.fileKindDetection.None?
    {
      base := new VersionPatcherConfig();
      shouldInsertAttributesIfMissing := true;
    }

    method InsertAttributesIfMissing()
      modifies this
      ensures shouldInsertAttributesIfMissing
    {
      shouldInsertAttributesIfMissing := true;
    }

    method IgnoreMissingAttributes()
      modifies this
      ensures !shouldInsertAttributesIfMissing
    {
      shouldInsertAttributesIfMissing := false;
    }

    method PatchNuspecFiles()
      modifies base
      ensures base.globberFilterList == old(base.globberFilterList) + ["**/*.nuspec"]
      ensures base.wildcardFilterList == old(base.wildcardFilterList) + ["*.nuspec"]
      ensures base.customFilterList == old(base.customFilterList)
      ensures base.shouldRecurse == old(base.shouldRecurse) && base.shouldUseGlobber == old(base.shouldUseGlobber)
      ensures base.fileKindDetection == old(base.fileKindDetection)
    {
      base.AddBuiltInFilters(["**/*.nuspec"], ["*.nuspec"]);
    }

    method WithFilters(filters: seq<string>) returns (r: Outcome)
      modifies base
      ensures r.Pass? <==> forall i :: 0 <= i < |filters| ==> !IsBlank(filters[i])
      ensures r.Pass? ==> base.customFilterList == old(base.customFilterList) + filters
      ensures r.Fail? ==> r.error == Argument
      ensures r.Fail? ==> exists k: nat :: FirstBlankAt(filters, k) && base.customFilterList == old(base.customFilterList) + filters[..k]
      ensures base.globberFilterList == old(base.globberFilterList)
      ensures base.wildcardFilterList == old(base.wildcardFilterList)
      ensures base.shouldRecurse == old(base.shouldRecurse) && base.shouldUseGlobber == old(base.shouldUseGlobber)
      ensures base.fileKindDetection == old(base.fileKindDetection)
    {
      r := base.AddCustomFilters(filters);
    }

    method WithCustomFilter(filter: string) returns (r: Outcome)
      modifies base
      ensures IsBlank(filter) ==> r == Fail(Argument) && base.customFilterList == old(base.customFilterList)
      ensures !IsBlank(filter) ==> r == Pass && base.customFilterList == old(base.customFilterList) + [filter]
      ensures base.globberFilterList == old(base.globberFilterList)
      ensures base.wildcardFilterList == old(base.wildcardFilterList)
      ensures base.shouldRecurse == old(base.shouldRecurse) && base.shouldUseGlobber == old(base.shouldUseGlobber)
      ensures base.fileKindDetection == old(base.fileKindDetection)
    {
      r := base.AddCustomFilter(filter);
    }

    method ClearFilters()
      modifies base
      ensures base.globberFilterList == [] && base.wildcardFilterList == [] && base.customFilterList == []
      ensures base.shouldRecurse == old(base.shouldRecurse) && base.shouldUseGlobber == old(base.shouldUseGlobber)
      ensures base.fileKindDetection == old(base.fileKindDetection)
    {
      base.ClearLists();
    }
  }

  /**
   * The text-file patcher's configuration: it has no built-in filters, so as long as
   * only its own methods change it, Filters is the custom list alone.
   */
  class TextFilePatcherConfig {
    const base: VersionPatcherConfig

    predicate NoBuiltInFilters()
      reads this, base
    {
      base.globberFilterList == [] && base.wildcardFilterList == []
    }

    constructor ()
      ensures fresh(base) && NoBuiltInFilters() && base.customFilterList == []
      ensures base.shouldRecurse && base.shouldUseGlobber && base.fileKindDetection.None?
    {
      base := new VersionPatcherConfig();
    }

    method WithFilters(filters: seq<string>) returns (r: Outcome)
      modifies base
      ensures r.Pass? <==> forall i :: 0 <= i < |filters| ==> !IsBlank(filters[i])
      ensures r.Pass? ==> base.customFilterList == old(base.customFilterList) + filters
      ensures r.Fail? ==> r.error == Argument
      ensures r.Fail? ==> exists k: nat :: FirstBlankAt(filters, k) && base.customFilterList == old(base.customFilterList) + filters[..k]
      ensures old(NoBuiltInFilters()) ==> NoBuiltInFilters() && base.Filters() == base.customFilterList
      ensures base.shouldRecurse == old(base.shouldRecurse) && base.shouldUseGlobber == old(base.shouldUseGlobber)
      ensures base.fileKindDetection == old(base.fileKindDetection)
      ensures base.globberFilterList == old(base.globberFilterList)
      ensures base.wildcardFilterList == old(base.wildcardFilterList)
    {
      r := base.AddCustomFilters(filters);
    }

    method WithCustomFilter(filter: string) returns (r: Outcome)
      modifies base
      ensures IsBlank(filter) ==> r == Fail(Argument) && base.customFilterList == old(base.customFilterList)
      ensures !IsBlank(filter) ==> r == Pass && base.customFilterList == old(base.customFilterList) + [filter]
      ensures old(NoBuiltInFilters()) ==> NoBuiltInFilters() && base.Filters() == base.customFilterList
      ensures base.shouldRecurse == old(base.shouldRecurse) && base.shouldUseGlobber == old(base.shouldUseGlobber)
      ensures base.fileKindDetection == old(base.fileKindDetection)
      ensures base.globberFilterList == old(base.globberFilterList)
      ensures base.wildcardFilterList == old(base.wildcardFilterList)
    {
      r := base.AddCustomFilter(filter);
    }

    method ClearFilters()
      modifies base
      ensures NoBuiltInFilters() && base.customFilterList == [] && base.Filters() == []
      ensures base.shouldRecurse == old(base.shouldRecurse) && base.shouldUseGlobber == old(base.shouldUseGlobber)
      ensures base.fileKindDetection == old(base.fileKindDetection)
    {
      base.ClearLists();
    }
  }
}
