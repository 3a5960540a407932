/**
 * CliProcess: one run of the tool. The bump method comes from the command-line flags, then
 * from the AUTOVERSIONIT_VERSION_BUMP_METHOD variable, then from the "bumpMethod" setting;
 * the current version is read from the source once and incremented once, and the next
 * version goes to every patcher in list order, then to every target in list order.
 */
module Cli {
  import opened Wrappers
  import opened Text
  import opened Versions
  import opened BumpTypes
  import opened Strategies
  import opened Disk
  import opened Patchers
  import FileVersionControl
  import EnvVersionControl
  import Reader
  import SE = StreamEncoding

  // The bump method

  /** The flags in the order GetVersionBumpMethod checks them, each with the bump it selects. */
  const Flags: seq<(string, VersionBumpType)> :=
    [("--major", Major), ("--minor", Minor), ("--build", Build), ("--revision", Revision), ("--nobump", VersionBumpType.None)]

  const BumpVariable: string := "AUTOVERSIONIT_VERSION_BUMP_METHOD"
  const BumpSetting: string := "bumpMethod"

  /** The name of each VersionBumpType member. */
  function BumpName(b: VersionBumpType): string {
    match b
    case None => "None"
    case Major => "Major"
    case Minor => "Minor"
    case Build => "Build"
    case Revision => "Revision"
    case Suffix => "Suffix"
  }

  /** Enum.TryParse(s, ignoreCase: true, ...), for member names: surrounding whitespace and case do not matter. */
  function ParseBump(s: string): (r: Option<VersionBumpType>)
    ensures r.Some? ==> EqualsIgnoreCase(Trim(s), BumpName(r.value))
  {
    var t := Trim(s);
    if EqualsIgnoreCase(t, "None") then Some(VersionBumpType.None)
    else if EqualsIgnoreCase(t, "Major") then Some(Major)
    else if EqualsIgnoreCase(t, "Minor") then Some(Minor)
    else if EqualsIgnoreCase(t, "Build") then Some(Build)
    else if EqualsIgnoreCase(t, "Revision") then Some(Revision)
    else if EqualsIgnoreCase(t, "Suffix") then Some(Suffix)
    else Option.None
  }

  /** Arguments.Contains(flag, StringComparer.OrdinalIgnoreCase). */
  predicate HasFlag(args: seq<string>, flag: string) {
    exists a <- args :: EqualsIgnoreCase(a, flag)
  }

  /** The bump of the first flag in the test order that the arguments hold, wherever it stands in them. */
  function FlagBump(args: seq<string>, flags: seq<(string, VersionBumpType)>): Option<VersionBumpType> {
    if flags == [] then Option.None
    else if HasFlag(args, flags[0].0) then Some(flags[0].1)
    else FlagBump(args, flags[1..])
  }

  /**
   * The entries of an IConfiguration in the order its providers supply them. Keys compare
   * ignoring case, and a later entry overrides an earlier one with the same key.
   */
  type Settings = seq<(string, string)>

  /** IConfiguration[key]: the value of the last entry whose key equals key ignoring case. */
  function Lookup(settings: Settings, key: string): (r: Option<string>)
    ensures r.None? <==> forall i :: 0 <= i < |settings| ==> !EqualsIgnoreCase(settings[i].0, key)
    ensures r.Some? ==> exists i :: 0 <= i < |settings| && EqualsIgnoreCase(settings[i].0, key) && settings[i].1 == r.value
                                     && forall j :: i < j < |settings| ==> !EqualsIgnoreCase(settings[j].0, key)
  {
    if settings == [] then Option.None
    else
      var last := settings[|settings| - 1];
      if EqualsIgnoreCase(last.0, key) then Some(last.1)
      else
        var r := Lookup(settings[..|settings| - 1], key);
        assert forall i :: 0 <= i < |settings| - 1 ==> settings[..|settings| - 1][i] == settings[i];
        r
  }

  /** A configuration value, if the configuration exists and has the key. */
  function Setting(configuration: Option<Settings>, key: string): Option<string> {
    match configuration
    case None => Option.None
    case Some(settings) => Lookup(settings, key)
  }

  /** GetVersionBumpMethod: flags, then the variable when it is not blank, then the setting; otherwise an InvalidOperationException. */
  function BumpMethod(args: seq<string>, env: map<string, string>, configuration: Option<Settings>): Result<VersionBumpType> {
    var flag := if |args| > 0 then FlagBump(args, Flags) else Option.None;
    if flag.Some? then Ok(flag.value)
    else
      var fromEnv := if BumpVariable in env && !IsBlank(env[BumpVariable]) then ParseBump(env[BumpVariable]) else Option.None;
      if fromEnv.Some? then Ok(fromEnv.value)
      else
        var setting := Setting(configuration, BumpSetting);
        var fromSetting := if setting.Some? then ParseBump(setting.value) else Option.None;
        if fromSetting.Some? then Ok(fromSetting.value)
        else Err(InvalidOperation)
  }

  /** Each member's own name parses to it, in any letter case. */
  lemma ParseBumpName(b: VersionBumpType, s: string)
    requires EqualsIgnoreCase(s, BumpName(b))
    ensures ParseBump(s) == Some(b)
  {
    var n := BumpName(b);
    assert !IsWhite(s[0]) && !IsWhite(s[|s| - 1]) by {
      assert ToLower(s[0]) == ToLower(n[0]);
      assert ToLower(s[|s| - 1]) == ToLower(n[|n| - 1]);
    }
    TrimOfTrimmed(s);
    assert forall c :: c != b ==> !EqualsIgnoreCase(s, BumpName(c)) by {
      forall c | c != b
        ensures !EqualsIgnoreCase(s, BumpName(c))
      {
        NamesDiffer(s, b, c);
      }
    }
  }

  /** No string matches two member names. */
  lemma NamesDiffer(s: string, b: VersionBumpType, c: VersionBumpType)
    requires b != c && EqualsIgnoreCase(s, BumpName(b))
    ensures !EqualsIgnoreCase(s, BumpName(c))
  {
    var n, m := BumpName(b), BumpName(c);
    if |n| == |m| {
      // Names of equal length differ in their first or second letter, whatever the case.
      assert ToLower(n[0]) != ToLower(m[0]) || ToLower(n[1]) != ToLower(m[1]);
    }
  }

  /** The first flag in the fixed order decides, wherever the flags stand and whatever else is set. */
  lemma {:induction false} FirstFlagWins(args: seq<string>, flags: seq<(string, VersionBumpType)>, i: nat)
    requires i < |flags| && HasFlag(args, flags[i].0)
    requires forall j :: 0 <= j < i ==> !HasFlag(args, flags[j].0)
    ensures FlagBump(args, flags) == Some(flags[i].1)
  {
    if i > 0 {
      assert flags[1..][i - 1] == flags[i];
      assert forall j :: 0 <= j < i - 1 ==> flags[1..][j] == flags[j + 1];
      FirstFlagWins(args, flags[1..], i - 1);
    }
  }

  /** The flags see the arguments as a set: their order and repetitions do not matter. */
  lemma {:induction false} FlagBumpIgnoresOrder(args: seq<string>, other: seq<string>, flags: seq<(string, VersionBumpType)>)
    requires forall a :: a in args <==> a in other
    ensures FlagBump(args, flags) == FlagBump(other, flags)
  {
    if flags != [] {
      assert HasFlag(args, flags[0].0) == HasFlag(other, flags[0].0);
      FlagBumpIgnoresOrder(args, other, flags[1..]);
    }
  }

  /** --major beats every other source of the bump method. */
  lemma MajorFlagFirst(args: seq<string>, env: map<string, string>, configuration: Option<Settings>)
    requires "--major" in args
    ensures BumpMethod(args, env, configuration) == Ok(Major)
  {
    assert EqualsIgnoreCase("--major", Flags[0].0);
    FirstFlagWins(args, Flags, 0);
  }

  /** "--NoBump" also beats the variable and the setting when no bumping flag is given. */
  lemma NoBumpFlag(args: seq<string>, env: map<string, string>, configuration: Option<Settings>)
    requires "--NoBump" in args
    requires forall j :: 0 <= j < 4 ==> !HasFlag(args, Flags[j].0)
    ensures BumpMethod(args, env, configuration) == Ok(VersionBumpType.None)
  {
    assert EqualsIgnoreCase("--NoBump", Flags[4].0);
    FirstFlagWins(args, Flags, 4);
  }

  /** Without a flag, a variable that names a member wins over the setting. */
  lemma VariableBeforeSetting(args: seq<string>, env: map<string, string>, configuration: Option<Settings>, b: VersionBumpType)
    requires FlagBump(args, Flags).None?
    requires BumpVariable in env && EqualsIgnoreCase(env[BumpVariable], BumpName(b))
    ensures BumpMethod(args, env, configuration) == Ok(b)
  {
    ParseBumpName(b, env[BumpVariable]);
    assert !IsWhite(env[BumpVariable][0]) by {
      assert ToLower(env[BumpVariable][0]) == ToLower(BumpName(b)[0]);
    }
  }

  /** The "bumpMethod" setting is found under any letter case of its key, as IConfiguration finds it. */
  lemma SettingKeyIgnoresCase(key: string, value: string)
    requires EqualsIgnoreCase(key, BumpSetting)
    ensures BumpMethod([], map[], Some([(key, value)])) == if ParseBump(value).Some? then Ok(ParseBump(value).value) else Err(InvalidOperation)
  {
    assert Lookup([(key, value)], BumpSetting) == Some(value);
  }

  /** {"BumpMethod": "Minor"} selects Minor. */
  lemma CapitalisedSettingKey()
    ensures BumpMethod([], map[], Some([("BumpMethod", "Minor")])) == Ok(Minor)
  {
    assert EqualsIgnoreCase("BumpMethod", BumpSetting) by {
      assert forall i :: 0 <= i < |"BumpMethod"| ==> ToLower("BumpMethod"[i]) == ToLower(BumpSetting[i]);
    }
    SettingKeyIgnoresCase("BumpMethod", "Minor");
    ParseBumpName(Minor, "Minor");
  }

  /** The run stops with an InvalidOperationException exactly when no flag, no usable variable and no usable setting exist. */
  lemma NoBumpMethodRefused(args: seq<string>, env: map<string, string>, configuration: Option<Settings>)
    ensures BumpMethod(args, env, configuration).Err? <==>
              && (|args| == 0 || FlagBump(args, Flags).None?)
              && (BumpVariable !in env || IsBlank(env[BumpVariable]) || ParseBump(env[BumpVariable]).None?)
              && (Setting(configuration, BumpSetting).None? || ParseBump(Setting(configuration, BumpSetting).value).None?)
    ensures BumpMethod(args, env, configuration).Err? ==> BumpMethod(args, env, configuration).error == InvalidOperation
  {
  }

  // The run

  /** The stores that implement IVersionSource here, and those that implement IVersionTarget. */
  datatype VersionSource =
    | FileSource(fileStore: FileVersionControl.FileBasedSimpleVersionControl)
    | EnvSource(envStore: EnvVersionControl.EnvironmentVariableVersionControl)

  datatype VersionTarget =
    | FileTarget(fileStore: FileVersionControl.FileBasedSimpleVersionControl)
    | EnvTarget(envStore: EnvVersionControl.EnvironmentVariableVersionControl)

  /** The disk and the process environment. */
  datatype World = World(files: map<string, seq<SE.byte>>, env: map<string, string>)

  /** The version reader the source reads with. */
  function SourceReader(s: VersionSource): Reader.VersionReader {
    match s
    case FileSource(store) => store.versionReader
    case EnvSource(store) => store.versionReader
  }

  /** What GetCurrentVersion of the source returns in a world. */
  function SourceVersion(s: VersionSource, w: World): Result<VersionInformation>
    reads SourceReader(s)
  {
    match s
    case FileSource(store) =>
      FileVersionControl.ReadVersion(store.versionReader.shouldThrowIfEmpty, FileVersionControl.FileAt(w.files, store.fileName))
    case EnvSource(store) =>
      EnvVersionControl.EnvVersion(store.versionReader.shouldThrowIfEmpty, w.env, store.variableName)
  }

  /** An environment target whose variable name Environment.SetEnvironmentVariable refuses. */
  predicate RefusedTarget(t: VersionTarget) {
    t.EnvTarget? && !EnvVersionControl.ValidVariableName(t.envStore.variableName)
  }

  /** The world after SetNewVersion of one target, or the exception it throws. */
  function TargetEffect(t: VersionTarget, w: World, v: VersionInformation): Result<World> {
    match t
    case FileTarget(store) => Ok(World(w.files[store.fileName := FileVersionControl.StoredBytes(v, store.newline)], w.env))
    case EnvTarget(store) =>
      var env :- EnvVersionControl.Published(w.env, store.variableName, v);
      Ok(World(w.files, env))
  }

  /** SetNewVersion of every target in order, stopping at the first exception with the world reached so far. */
  function TargetsEffect(ts: seq<VersionTarget>, w: World, v: VersionInformation): (Outcome, World) {
    if ts == [] then (Pass, w)
    else
      match TargetEffect(ts[0], w, v)
      case Err(e) => (Fail(e), w)
      case Ok(next) => TargetsEffect(ts[1..], next, v)
  }

  /** The configuration objects of a list of patchers. */
  function PatchersFootprint(ps: seq<VersionPatcher>): set<object> {
    set p, o | p in ps && o in p.Footprint() :: o
  }

  /** The plans of a list of patchers, as their configurations stand. */
  function Plans(ps: seq<VersionPatcher>): (plans: seq<PatchPlan>)
    reads PatchersFootprint(ps)
    ensures |plans| == |ps|
    ensures forall j :: 0 <= j < |ps| ==> plans[j] == ps[j].Plan()
  {
    seq(|ps|, j requires 0 <= j < |ps| reads PatchersFootprint(ps) => ps[j].Plan())
  }

  /** Patch of every patcher in order, stopping at the first exception. */
  function PatchersEffect(plans: seq<PatchPlan>, files: map<string, seq<SE.byte>>, v: VersionInformation): Step {
    if plans == [] then Step(Pass, files)
    else
      var step := PlanEffect(plans[0], files, v);
      if step.outcome.Fail? then step else PatchersEffect(plans[1..], step.files, v)
  }

  /** One step of the patcher loop: the i-th patcher either fails the run or hands its files on. */
  lemma PatchersEffectStep(plans: seq<PatchPlan>, i: nat, files: map<string, seq<SE.byte>>, v: VersionInformation, step: Step)
    requires i < |plans| && step == PlanEffect(plans[i], files, v)
    ensures step.outcome.Fail? ==> PatchersEffect(plans[i..], files, v) == step
    ensures step.outcome.Pass? ==> PatchersEffect(plans[i..], files, v) == PatchersEffect(plans[i + 1..], step.files, v)
  {
    assert plans[i..][1..] == plans[i + 1..];
  }

  /** The configuration objects of a run exist. */
  lemma FootprintAllocated(p: CliProcess)
    ensures forall o <- p.Footprint() :: allocated(o)
  {
  }

  /** Patch of one patcher, which leaves the plans of the others as they were. */
  method PatchKeeping(p: VersionPatcher, others: seq<VersionPatcher>, disk: FileSystem, v: VersionInformation) returns (o: Outcome)
    requires p.fs == disk
    modifies disk
    ensures Step(o, disk.files) == PlanEffect(old(p.Plan()), old(disk.files), v)
    ensures forall q <- others :: q.Plan() == old(q.Plan())
  {
    o := p.Patch(v);
  }

  /** The patchers in order, then, if none failed, the targets in order. */
  function PublishEffect(plans: seq<PatchPlan>, targets: seq<VersionTarget>, w: World, next: VersionInformation): (Outcome, World) {
    var patched := PatchersEffect(plans, w.files, next);
    if patched.outcome.Fail? then (patched.outcome, World(patched.files, w.env))
    else TargetsEffect(targets, World(patched.files, w.env), next)
  }

  class CliProcess {
    const arguments: seq<string>
    const configuration: Option<Settings>
    const source: VersionSource
    const targets: seq<VersionTarget>
    const patchers: seq<VersionPatcher>
    const strategy: Strategy
    const disk: FileSystem
    const environment: EnvVersionControl.Environment

    constructor (arguments: seq<string>, configuration: Option<Settings>, source: VersionSource,
                 targets: seq<VersionTarget>, patchers: seq<VersionPatcher>, strategy: Strategy,
                 disk: FileSystem, environment: EnvVersionControl.Environment)
      ensures this.arguments == arguments && this.configuration == configuration && this.source == source
      ensures this.targets == targets && this.patchers == patchers && this.strategy == strategy
      ensures this.disk == disk && this.environment == environment
    {
      this.arguments := arguments;
      this.configuration := configuration;
      this.source := source;
      this.targets := targets;
      this.patchers := patchers;
      this.strategy := strategy;
      this.disk := disk;
      this.environment := environment;
    }

    /** Every store and patcher works on the one disk and the one process environment. */
    predicate Valid() {
      && (forall p <- patchers :: p.fs == disk)
      && (forall t <- targets :: UsesWorld(t))
      && match source
         case FileSource(store) => store.fs == disk
         case EnvSource(store) => store.env == environment
    }

    predicate UsesWorld(t: VersionTarget) {
      match t
      case FileTarget(store) => store.fs == disk
      case EnvTarget(store) => store.env == environment
    }

    /** The objects whose fields decide what a run does, besides the disk and the environment. */
    function Footprint(): set<object> {
      {SourceReader(source)} + PatchersFootprint(patchers)
    }

    /** The version the run hands on: the bump method, the source read once, one increment. */
    function NextVersion(w: World): Result<VersionInformation>
      reads SourceReader(source)
    {
      var bump :- BumpMethod(arguments, w.env, configuration);
      var current :- SourceVersion(source, w);
      Increment(strategy, current, bump)
    }

    /** What Run does: the outcome and the world it leaves. */
    function Effect(w: World): (Outcome, World)
      reads Footprint()
    {
      match NextVersion(w)
      case Err(e) => (Fail(e), w)
      case Ok(next) => PublishEffect(Plans(patchers), targets, w, next)
    }

    /** GetVersionBumpMethod. */
    method GetVersionBumpMethod() returns (r: Result<VersionBumpType>)
      ensures r == BumpMethod(arguments, environment.variables, configuration)
    {
      if |arguments| > 0 {
        var i := 0;
        while i < |Flags|
          invariant 0 <= i <= |Flags|
          invariant FlagBump(arguments, Flags[i..]) == FlagBump(arguments, Flags)
        {
          assert Flags[i..][1..] == Flags[i + 1..];
          if HasFlag(arguments, Flags[i].0) {
            return Ok(Flags[i].1);
          }
          i := i + 1;
        }
      }
      if BumpVariable in environment.variables && !IsBlank(environment.variables[BumpVariable]) {
        var parsed := ParseBump(environment.variables[BumpVariable]);
        if parsed.Some? {
          return Ok(parsed.value);
        }
      }
      var setting := Setting(configuration, BumpSetting);
      if setting.Some? {
        var parsed := ParseBump(setting.value);
        if parsed.Some? {
          return Ok(parsed.value);
        }
      }
      return Err(InvalidOperation);
    }

    /** GetCurrentVersion of the source. */
    method ReadSource() returns (r: Result<VersionInformation>)
      requires Valid()
      ensures r == SourceVersion(source, World(disk.files, environment.variables))
    {
      match source
      case FileSource(store) =>
        r := store.GetCurrentVersion();
      case EnvSource(store) =>
        r := store.GetCurrentVersion();
    }

    /** The patcher loop of Run. */
    method ApplyPatchers(next: VersionInformation) returns (r: Outcome)
      requires Valid()
      modifies disk
      ensures Step(r, disk.files) == PatchersEffect(old(Plans(patchers)), old(disk.files), next)
    {
      ghost var plans := Plans(patchers);
      var i := 0;
      while i < |patchers|
        invariant 0 <= i <= |patchers|
        invariant forall j | i <= j < |patchers| :: patchers[j].Plan() == plans[j]
        invariant PatchersEffect(plans[i..], disk.files, next) == PatchersEffect(plans, old(disk.files), next)
      {
        ghost var before := disk.files;
        assert patchers[i] in patchers;
        var o := PatchKeeping(patchers[i], patchers[i + 1..], disk, next);
        forall j | i < j < |patchers|
          ensures patchers[j].Plan() == plans[j]
        {
          assert patchers[j] in patchers[i + 1..];
        }
        PatchersEffectStep(plans, i, before, next, Step(o, disk.files));
        if o.Fail? {
          return o;
        }
        i := i + 1;
      }
      return Pass;
    }

    /** SetNewVersion of one target; a failing target changes nothing. */
    method ApplyTarget(t: VersionTarget, next: VersionInformation) returns (r: Outcome)
      requires UsesWorld(t)
      modifies disk, environment
      ensures r.Fail? <==> TargetEffect(t, old(World(disk.files, environment.variables)), next).Err?
      ensures r.Fail? ==> r.error == TargetEffect(t, old(World(disk.files, environment.variables)), next).error
      ensures r.Fail? ==> World(disk.files, environment.variables) == old(World(disk.files, environment.variables))
      ensures r.Pass? ==> Ok(World(disk.files, environment.variables)) == TargetEffect(t, old(World(disk.files, environment.variables)), next)
    {
      match t
      case FileTarget(store) =>
        store.SetNewVersion(next);
        r := Pass;
      case EnvTarget(store) =>
        r := store.SetNewVersion(next);
    }

    /** The target loop of Run, stopping at the first exception. */
    method ApplyTargets(next: VersionInformation) returns (r: Outcome)
      requires Valid()
      modifies disk, environment
      ensures (r, World(disk.files, environment.variables)) == TargetsEffect(targets, old(World(disk.files, environment.variables)), next)
    {
      var i := 0;
      while i < |targets|
        invariant 0 <= i <= |targets|
        invariant TargetsEffect(targets[i..], World(disk.files, environment.variables), next)
               == TargetsEffect(targets, old(World(disk.files, environment.variables)), next)
      {
        assert targets[i..][1..] == targets[i + 1..];
        assert targets[i] in targets;
        var o := ApplyTarget(targets[i], next);
        if o.Fail? {
          return o;
        }
        i := i + 1;
      }
      return Pass;
    }

    /** The first half of Run: the bump method, the source read once, one increment. */
    method NextVersionOfRun() returns (next: Result<VersionInformation>)
      requires Valid()
      ensures next == NextVersion(World(disk.files, environment.variables))
    {
      ghost var w := World(disk.files, environment.variables);
      ghost var objs := {SourceReader(source)};
      assert forall o <- objs :: allocated(o);
      var bump := GetVersionBumpMethod();
      if bump.Err? {
        return Err(bump.error);
      }
      var current := ReadSource();
      assert unchanged(objs);
      assert current == SourceVersion(source, w);
      if current.Err? {
        return Err(current.error);
      }
      next := Increment(strategy, current.value, bump.value);
    }

    /** The second half of Run: the patchers, then, if none failed, the targets. */
    method Publish(next: VersionInformation) returns (r: Outcome)
      requires Valid()
      modifies disk, environment
      ensures (r, World(disk.files, environment.variables))
           == PublishEffect(old(Plans(patchers)), targets, old(World(disk.files, environment.variables)), next)
    {
      ghost var w := World(disk.files, environment.variables);
      r := ApplyPatchers(next);
      assert environment.variables == w.env;
      if r.Fail? {
        return;
      }
      r := ApplyTargets(next);
    }

    /** Run: the bump method, the source read once, one increment, the patchers, then the targets. */
    method Run() returns (r: Outcome)
      requires Valid()
      modifies disk, environment
      ensures (r, World(disk.files, environment.variables)) == old(Effect(World(disk.files, environment.variables)))
    {
      ghost var w := World(disk.files, environment.variables);
      ghost var e := Effect(w);
      ghost var objs := Footprint();
      FootprintAllocated(this);
      var next := NextVersionOfRun();
      assert unchanged(objs);
      assert next == NextVersion(w);
      if next.Err? {
        return Fail(next.error);
      }
      r := Publish(next.value);
    }
  }

  // What a run promises

  /** One target throws exactly when it is an environment target with a refused name. */
  lemma TargetRefusal(t: VersionTarget, w: World, v: VersionInformation)
    ensures TargetEffect(t, w, v).Err? <==> RefusedTarget(t)
    ensures TargetEffect(t, w, v).Err? ==> TargetEffect(t, w, v).error == Argument
  {
  }

  /** One step of the target loop: a target that succeeds hands its world to the rest. */
  lemma TargetsCons(ts: seq<VersionTarget>, w: World, v: VersionInformation)
    requires ts != [] && TargetEffect(ts[0], w, v).Ok?
    ensures TargetsEffect(ts, w, v) == TargetsEffect(ts[1..], TargetEffect(ts[0], w, v).value, v)
  {
  }

  /**
   * The targets fail exactly when one of them is an environment target with a refused name,
   * and then with an ArgumentException.
   */
  lemma {:induction false} TargetsFailAtRefusedName(ts: seq<VersionTarget>, w: World, v: VersionInformation)
    ensures TargetsEffect(ts, w, v).0.Fail? <==> exists t <- ts :: RefusedTarget(t)
    ensures TargetsEffect(ts, w, v).0.Fail? ==> TargetsEffect(ts, w, v).0.error == Argument
  {
    if ts != [] {
      assert ts[0] in ts;
      match TargetEffect(ts[0], w, v)
      case Err(e) =>
      case Ok(next) =>
        TargetsFailAtRefusedName(ts[1..], next, v);
        assert forall t <- ts :: t == ts[0] || t in ts[1..];
    }
  }

  /**
   * At the first target with a refused name the loop stops: the targets before it have all
   * run, and none after it runs.
   */
  lemma {:induction false} TargetsStopAtRefusedName(ts: seq<VersionTarget>, w: World, v: VersionInformation, i: nat)
    requires i < |ts| && RefusedTarget(ts[i])
    requires forall j :: 0 <= j < i ==> !RefusedTarget(ts[j])
    ensures TargetsEffect(ts[..i], w, v).0 == Pass
    ensures TargetsEffect(ts, w, v) == (Fail(Argument), TargetsEffect(ts[..i], w, v).1)
  {
    TargetRefusal(ts[0], w, v);
    if i > 0 {
      var next := TargetEffect(ts[0], w, v).value;
      TargetsCons(ts, w, v);
      TargetsCons(ts[..i], w, v);
      assert ts[1..][..i - 1] == ts[..i][1..];
      assert forall j :: 0 <= j < i - 1 ==> ts[1..][j] == ts[j + 1];
      TargetsStopAtRefusedName(ts[1..], next, v, i - 1);
    }
  }

  /**
   * A failed run leaves the environment as it was when every environment target has an
   * accepted name: the targets then never throw, so the run failed before they ran.
   */
  lemma FailedRunKeepsEnvironment(p: CliProcess, w: World)
    ensures p.Effect(w).0.Fail? && (forall t <- p.targets :: !RefusedTarget(t)) ==> p.Effect(w).1.env == w.env
  {
    if p.NextVersion(w).Ok? {
      var patched := PatchersEffect(Plans(p.patchers), w.files, p.NextVersion(w).value);
      TargetsFailAtRefusedName(p.targets, World(patched.files, w.env), p.NextVersion(w).value);
    }
  }

  /** File targets write only their own files, and never the environment. */
  lemma {:induction false} FileTargetsKeepOtherFiles(ts: seq<VersionTarget>, w: World, v: VersionInformation, name: string)
    requires forall t <- ts :: t.FileTarget? && t.fileStore.fileName != name
    ensures TargetsEffect(ts, w, v).0 == Pass
    ensures name in TargetsEffect(ts, w, v).1.files <==> name in w.files
    ensures name in w.files ==> TargetsEffect(ts, w, v).1.files[name] == w.files[name]
    ensures TargetsEffect(ts, w, v).1.env == w.env
  {
    if ts != [] {
      assert ts[0] in ts;
      FileTargetsKeepOtherFiles(ts[1..], TargetEffect(ts[0], w, v).value, v, name);
    }
  }

  /** Without patchers, a run whose next version is known is its target loop on the world it starts from. */
  lemma NoPatchersEffect(p: CliProcess, w: World, next: VersionInformation)
    requires p.patchers == [] && p.NextVersion(w) == Ok(next)
    ensures p.Effect(w) == TargetsEffect(p.targets, w, next)
  {
    assert Plans(p.patchers) == [];
    assert World(w.files, w.env) == w;
  }

  /**
   * A run whose source and only target is the same environment store, with no patchers, leaves
   * the incremented version where the next run reads it; with a refused name it throws an
   * ArgumentException and changes nothing.
   */
  lemma EnvRunFeedsNextRun(p: CliProcess, w: World, store: EnvVersionControl.EnvironmentVariableVersionControl, next: VersionInformation)
    requires p.source == EnvSource(store) && p.targets == [EnvTarget(store)] && p.patchers == []
    requires p.NextVersion(w) == Ok(next)
    requires Reader.RoundTrips(next) && ' ' !in next.fixedSuffix && '\t' !in next.fixedSuffix
    ensures p.Effect(w).0 == Pass <==> EnvVersionControl.ValidVariableName(store.variableName)
    ensures p.Effect(w).0.Fail? ==> p.Effect(w) == (Fail(Argument), w)
    ensures p.Effect(w).0 == Pass ==> SourceVersion(p.source, p.Effect(w).1) == Ok(next)
  {
    NoPatchersEffect(p, w, next);
    TargetRefusal(EnvTarget(store), w, next);
    if EnvVersionControl.ValidVariableName(store.variableName) {
      EnvVersionControl.PublishedReadsBack(store.versionReader.shouldThrowIfEmpty, w.env, store.variableName, next);
      TargetsCons([EnvTarget(store)], w, next);
      assert [EnvTarget(store)][1..] == [];
    }
  }
}
