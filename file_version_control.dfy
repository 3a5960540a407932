/**
 * FileBasedSimpleVersionControl: the version kept in a small "Key = Value" text file in
 * ASCII. Reading skips blank lines and comment lines and takes the first line whose key
 * is "Version", ignoring case, spaces and tabs; a missing file or a missing line is
 * version 0.0.0.0. Writing replaces the whole file with the version's rendering and its parts.
 */
module FileVersionControl {
  import opened Wrappers
  import opened Text
  import opened Versions
  import opened Reader
  import opened Disk
  import SE = StreamEncoding

  /** FileBasedSimpleVersionControlConfig: the name of the version file. */
  datatype FileStoreConfig = FileStoreConfig(filename: string)

  /** The name the checks see: None stands for a null config. */
  function ConfiguredName(config: Option<FileStoreConfig>): Option<string> {
    match config
    case None => None
    case Some(c) => Some(c.filename)
  }

  const VersionKey: string := "Version"

  /** "{key} = {value}", the form of every line the writer puts in the file. */
  function Entry(key: string, value: string): string {
    key + " = " + value
  }

  /** A line once trimmed and stripped of spaces and tabs; None for the blank and comment lines the reader skips. */
  function Cleaned(line: string): Option<string> {
    if IsBlank(line) then None
    else
      var t := Trim(line);
      if StartsWith(t, "//") || StartsWith(t, "#") then None
      else Some(Remove(Remove(t, ' '), '\t'))
  }

  /** A cleaned "Version=" line: its text between the first and the second '=', trimmed. */
  function VersionValue(entry: string): Option<string> {
    if StartsWithIgnoreCase(entry, VersionKey + "=") then
      KeyEndsAtEquals(entry);
      Some(Trim(Split(entry, '=')[1]))
    else
      None
  }

  /** The value a line gives the Version key, if the reader takes it. */
  function Taken(line: string): Option<string> {
    match Cleaned(line)
    case None => None
    case Some(entry) => VersionValue(entry)
  }

  /** What the reader makes of a taken value: blank is version 0.0.0.0, otherwise VersionReader.FromString. */
  function ValueVersion(throwIfEmpty: bool, value: string): Result<VersionInformation> {
    if IsBlank(value) then Ok(Zero()) else ParseVersion(throwIfEmpty, value)
  }

  /** The version the first taken line gives, or 0.0.0.0 when no line is taken. */
  function ScanVersion(throwIfEmpty: bool, lines: seq<string>): Result<VersionInformation> {
    if lines == [] then Ok(Zero())
    else
      match Taken(lines[0])
      case None => ScanVersion(throwIfEmpty, lines[1..])
      case Some(value) => ValueVersion(throwIfEmpty, value)
  }

  /** The file under a name, if it exists. */
  function FileAt(files: map<string, seq<SE.byte>>, name: string): Option<seq<SE.byte>> {
    if name in files then Some(files[name]) else None
  }

  /** What GetCurrentVersion returns for the version file's contents. */
  function ReadVersion(throwIfEmpty: bool, file: Option<seq<SE.byte>>): Result<VersionInformation> {
    match file
    case None => Ok(Zero())
    case Some(bytes) => ScanVersion(throwIfEmpty, ReadLines(ReaderText(bytes)))
  }

  /** The lines SetNewVersion writes; the suffix line only when the trimmed dynamic suffix is not blank. */
  function StoreLines(v: VersionInformation): seq<string> {
    var c := v.canonicalPart;
    var suffix := Trim(v.dynamicSuffix);
    [Entry(VersionKey, ToString(v)),
     Entry("CanonicalVersion", AsFullCanonicalString(v)),
     Entry("VersionMajor", NatToString(c.major)),
     Entry("VersionMinor", NatToString(c.minor)),
     Entry("VersionBuild", NatToString(c.build)),
     Entry("VersionRevision", NatToString(c.revision))]
    + (if IsBlank(suffix) then [] else [Entry("VersionSuffix", suffix)])
  }

  /** The bytes of the file SetNewVersion leaves. */
  function StoredBytes(v: VersionInformation, nl: Newline): seq<SE.byte> {
    AsciiEncode(WriteLines(StoreLines(v), nl))
  }

  class FileBasedSimpleVersionControl {
    const fileName: string
    const versionReader: VersionReader
    const fs: FileSystem
    const newline: Newline

    /** The constructor once its argument checks have passed. */
    constructor (config: FileStoreConfig, reader: VersionReader, fs: FileSystem, newline: Newline)
      requires CheckStoreArguments(Some(config.filename), true).Pass?
      ensures fileName == config.filename && versionReader == reader
      ensures this.fs == fs && this.newline == newline
    {
      fileName := config.filename;
      versionReader := reader;
      this.fs := fs;
      this.newline := newline;
    }

    /** new FileBasedSimpleVersionControl(config, reader): the argument checks, then the object. */
    static method Create(config: Option<FileStoreConfig>, reader: Option<VersionReader>, fs: FileSystem, newline: Newline)
      returns (r: Result<FileBasedSimpleVersionControl>)
      ensures r.Err? <==> CheckStoreArguments(ConfiguredName(config), reader.Some?).Fail?
      ensures r.Err? ==> r.error == CheckStoreArguments(ConfiguredName(config), reader.Some?).error
      ensures r.Ok? ==> fresh(r.value) && r.value.fileName == config.value.filename
      ensures r.Ok? ==> r.value.versionReader == reader.value && r.value.fs == fs && r.value.newline == newline
    {
      var check := CheckStoreArguments(ConfiguredName(config), reader.Some?);
      if check.Fail? {
        return Err(check.error);
      }
      var store := new FileBasedSimpleVersionControl(config.value, reader.value, fs, newline);
      return Ok(store);
    }

    /** GetCurrentVersion: the line loop over the file read in ASCII after any UTF-8 mark. */
    method GetCurrentVersion() returns (r: Result<VersionInformation>)
      ensures r == ReadVersion(versionReader.shouldThrowIfEmpty, FileAt(fs.files, fileName))
    {
      if fileName !in fs.files {
        return Ok(Zero());
      }
      var lines := ReadLines(ReaderText(fs.files[fileName]));
      ghost var throwIfEmpty := versionReader.shouldThrowIfEmpty;
      var i := 0;
      while i < |lines|
        invariant 0 <= i <= |lines|
        invariant ScanVersion(throwIfEmpty, lines[i..]) == ScanVersion(throwIfEmpty, lines)
      {
        var line := lines[i];
        assert lines[i..][1..] == lines[i + 1..];
        i := i + 1;
        if IsBlank(line) {
          continue;
        }
        line := Trim(line);
        if StartsWith(line, "//") || StartsWith(line, "#") {
          continue;
        }
        line := Remove(Remove(line, ' '), '\t');
        if StartsWithIgnoreCase(line, VersionKey + "=") {
          KeyEndsAtEquals(line);
          line := Trim(Split(line, '=')[1]);
          if IsBlank(line) {
            return Ok(Zero());
          }
          r := versionReader.FromString(line);
          return;
        }
      }
      return Ok(Zero());
    }

    /** SetNewVersion: the file is truncated and rewritten; no other file changes. */
    method SetNewVersion(v: VersionInformation)
      modifies fs
      ensures fs.files == old(fs.files)[fileName := StoredBytes(v, newline)]
    {
      var lines := StoreLines(v);
      fs.files := fs.files[fileName := AsciiEncode(WriteLines(lines, newline))];
    }
  }

  // What the reader takes

  /** A line that starts with "Version=" in any case has an '=' right after the key. */
  lemma KeyEndsAtEquals(entry: string)
    requires StartsWithIgnoreCase(entry, VersionKey + "=")
    ensures |Split(entry, '=')| >= 2
  {
    assert ToLower(entry[7]) == ToLower((VersionKey + "=")[7]);
    assert entry[7] == '=';
    assert '=' in entry;
  }

  /** For a key without '=', the line is taken exactly when the key is "Version" in some case; the value ends at the next '='. */
  lemma KeyMustBeVersion(key: string, value: string)
    requires '=' !in key
    ensures VersionValue(key + "=" + value).Some? <==> EqualsIgnoreCase(key, VersionKey)
    ensures EqualsIgnoreCase(key, VersionKey) ==> VersionValue(key + "=" + value) == Some(Trim(Split(value, '=')[0]))
  {
    var e := key + "=" + value;
    var p := VersionKey + "=";
    assert e[|key|] == '=';
    if |key| < 7 {
      assert ToLower(e[|key|]) != ToLower(p[|key|]);
      assert !StartsWithIgnoreCase(e, p) by {
        if |e| >= 8 {
          assert e[..8][|key|] == e[|key|];
        }
      }
    } else if |key| > 7 {
      assert e[7] == key[7];
      assert ToLower(e[7]) != ToLower(p[7]);
      assert !EqualsIgnoreCase(e[..8], p) by {
        assert e[..8][7] == e[7];
      }
    } else {
      assert e[..8] == key + "=";
      assert EqualsIgnoreCase(key + "=", p) <==> EqualsIgnoreCase(key, VersionKey) by {
        assert forall i :: 0 <= i < 7 ==> (key + "=")[i] == key[i] && p[i] == VersionKey[i];
      }
    }
    SplitAt(key, '=', value);
  }

  /** Blank lines and lines starting with "//" or "#" once trimmed are never taken. */
  lemma CommentsSkipped(line: string)
    requires IsBlank(line) || StartsWith(Trim(line), "//") || StartsWith(Trim(line), "#")
    ensures Taken(line) == None
  {
  }

  /** The other lines the writer puts in the file are never taken. */
  lemma PartLinesSkipped(key: string, value: string)
    requires key in {"CanonicalVersion", "VersionMajor", "VersionMinor", "VersionBuild", "VersionRevision", "VersionSuffix"}
    requires ' ' !in value && '\t' !in value && IsTrimmed(value) && !IsBlank(value)
    ensures Taken(Entry(key, value)) == None
  {
    CleanedEntry(key, value);
    KeyMustBeVersion(key, value);
    assert !EqualsIgnoreCase(key, VersionKey);
  }

  /** An entry whose key starts with a letter and holds no space, tab or '=' cleans to "key=value". */
  lemma CleanedEntry(key: string, value: string)
    requires key != [] && 'A' <= key[0] <= 'Z'
    requires ' ' !in key && '\t' !in key && '=' !in key
    requires ' ' !in value && '\t' !in value && IsTrimmed(value) && !IsBlank(value)
    ensures Cleaned(Entry(key, value)) == Some(key + "=" + value)
  {
    var line := Entry(key, value);
    assert line[0] == key[0];
    assert line[|line| - 1] == value[|value| - 1];
    TrimOfTrimmed(line);
    assert !StartsWith(line, "//") && !StartsWith(line, "#");
    RemoveAppend(key + " = ", value, ' ');
    RemoveAppend(key, " = ", ' ');
    RemoveAbsent(key, ' ');
    RemoveAbsent(value, ' ');
    assert Remove(" = ", ' ') == "=" by {
      assert " = "[1..] == "= ";
      assert "= "[1..] == " ";
      assert " "[1..] == [];
    }
    assert Remove(line, ' ') == key + "=" + value;
    RemoveAbsent(key + "=" + value, '\t');
  }

  // The scan

  /** The first taken line decides, whatever follows it. */
  lemma {:induction false} ScanFirstTaken(throwIfEmpty: bool, lines: seq<string>, i: nat, value: string)
    requires i < |lines| && Taken(lines[i]) == Some(value)
    requires forall j :: 0 <= j < i ==> Taken(lines[j]).None?
    ensures ScanVersion(throwIfEmpty, lines) == ValueVersion(throwIfEmpty, value)
  {
    if i > 0 {
      var tail := lines[1..];
      ScanSkipsUntaken(throwIfEmpty, lines);
      assert tail[i - 1] == lines[i];
      assert forall j :: 0 <= j < i - 1 ==> tail[j] == lines[j + 1];
      ScanFirstTaken(throwIfEmpty, tail, i - 1, value);
    }
  }

  /** A line that is not taken is skipped. */
  lemma ScanSkipsUntaken(throwIfEmpty: bool, lines: seq<string>)
    requires lines != [] && Taken(lines[0]).None?
    ensures ScanVersion(throwIfEmpty, lines) == ScanVersion(throwIfEmpty, lines[1..])
  {
  }

  /** A file in which no line is taken reads as 0.0.0.0. */
  lemma {:induction false} ScanNothingTaken(throwIfEmpty: bool, lines: seq<string>)
    requires forall j :: 0 <= j < |lines| ==> Taken(lines[j]).None?
    ensures ScanVersion(throwIfEmpty, lines) == Ok(Zero())
  {
    if lines != [] {
      ScanNothingTaken(throwIfEmpty, lines[1..]);
    }
  }

  /** ShouldThrowIfEmpty never matters here: a blank value is caught before the reader sees it. */
  lemma {:induction false} ScanIgnoresThrowIfEmpty(lines: seq<string>)
    ensures ScanVersion(true, lines) == ScanVersion(false, lines)
  {
    if lines != [] {
      ScanIgnoresThrowIfEmpty(lines[1..]);
    }
  }

  /** A missing file reads as 0.0.0.0. */
  lemma MissingFileIsZero(throwIfEmpty: bool, files: map<string, seq<SE.byte>>, name: string)
    requires name !in files
    ensures ReadVersion(throwIfEmpty, FileAt(files, name)) == Ok(Zero())
  {
  }

  // Writing and reading back

  /**
   * A value the file keeps intact: it round-trips through the renderer and the parser, and its
   * fixed suffix is plain ASCII without the spaces, tabs and '=' the reader strips or splits at.
   */
  predicate Storable(v: VersionInformation) {
    && RoundTrips(v)
    && (forall c <- v.fixedSuffix :: c != ' ' && c != '\t' && c != '=' && !IsBreak(c) && c as int < 128)
  }

  /** The Version line of a storable value is a single ASCII line the reader takes with the rendering as its value. */
  lemma VersionLine(v: VersionInformation)
    requires Storable(v)
    ensures NoBreak(Entry(VersionKey, ToString(v))) && IsAsciiText(Entry(VersionKey, ToString(v)))
    ensures Taken(Entry(VersionKey, ToString(v))) == Some(ToString(v))
    ensures !IsBlank(ToString(v))
  {
    var x := ToString(v);
    RenderedAlphabet(v);
    RenderedTrimmed(v);
    var line := Entry(VersionKey, x);
    forall i | 0 <= i < |line|
      ensures !IsBreak(line[i]) && line[i] as int < 128
    {
      if i >= |VersionKey + " = "| {
        assert line[i] == x[i - |VersionKey + " = "|];
        assert line[i] in x;
      }
    }
    assert ' ' !in x && '\t' !in x && '=' !in x;
    CleanedEntry(VersionKey, x);
    KeyMustBeVersion(VersionKey, x);
    assert Split(x, '=') == [x];
    TrimOfTrimmed(x);
  }

  /** The first line written in ASCII is the first line read back, ahead of whatever the other lines read as. */
  lemma FirstLineReadBack(first: string, others: seq<string>, nl: Newline)
    requires NoBreak(first) && IsAsciiText(first)
    ensures ReadLines(AsciiDecode(AsciiEncode(WriteLines([first] + others, nl))))
            == [first] + ReadLines(ToAscii(WriteLines(others, nl)))
  {
    var rest := WriteLines(others, nl);
    assert ([first] + others)[1..] == others;
    assert WriteLines([first] + others, nl) == first + NewlineText(nl) + rest;
    AsciiRoundTrip(first + NewlineText(nl) + rest);
    ToAsciiAppend(first + NewlineText(nl), rest);
    ToAsciiAppend(first, NewlineText(nl));
    ToAsciiOfAscii(first);
    ToAsciiOfAscii(NewlineText(nl));
    ReadLinesCons(first, nl, ToAscii(rest));
  }

  /** A UTF-8 mark in front of a file that has none does not change the version read. */
  lemma ReadVersionSkipsUtf8Mark(throwIfEmpty: bool, b: seq<SE.byte>)
    requires b == [] || b[0] != 0xEF
    ensures ReadVersion(throwIfEmpty, Some(Utf8Mark + b)) == ReadVersion(throwIfEmpty, Some(b))
  {
    ReaderSkipsUtf8Mark(b);
    ReaderTextUnmarked(b);
  }

  /** GetCurrentVersion after SetNewVersion(v) returns v, whichever newline the platform writes. */
  lemma StoredVersionReadsBack(throwIfEmpty: bool, v: VersionInformation, nl: Newline)
    requires Storable(v)
    ensures ReadVersion(throwIfEmpty, Some(StoredBytes(v, nl))) == Ok(v)
  {
    var lines := StoreLines(v);
    assert lines == [lines[0]] + lines[1..];
    assert WriteLines(lines, nl)[0] == 'V';
    ReaderTextUnmarked(StoredBytes(v, nl));
    VersionLine(v);
    FirstLineReadBack(lines[0], lines[1..], nl);
    ParseToString(throwIfEmpty, v);
  }
}
