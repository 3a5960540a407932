/**
 * EnvironmentVariableVersionControl: the version kept in a process environment variable
 * NAME, with its parts published beside it as NAME_CANONICAL, NAME_MAJOR, NAME_MINOR,
 * NAME_BUILD, NAME_REVISION and NAME_SUFFIX. Reading looks at NAME alone: unset or blank
 * is version 0.0.0.0, otherwise the value is trimmed, stripped of spaces and tabs, and parsed.
 */
module EnvVersionControl {
  import opened Wrappers
  import opened Text
  import opened Versions
  import opened Reader

  /** EnvironmentVariableVersionControlConfig: the name of the variable. */
  datatype EnvStoreConfig = EnvStoreConfig(variableName: string)

  /** The name the checks see: None stands for a null config. */
  function ConfiguredName(config: Option<EnvStoreConfig>): Option<string> {
    match config
    case None => None
    case Some(c) => Some(c.variableName)
  }

  /** The names Environment.SetEnvironmentVariable accepts: not empty, not starting with NUL, without '='. */
  predicate ValidVariableName(name: string) {
    name != "" && name[0] != '\0' && '=' !in name
  }

  /** The values Environment.SetEnvironmentVariable takes as a deletion: empty, or starting with NUL. */
  predicate DeletesVariable(value: string) {
    value == "" || value[0] == '\0'
  }

  /** The environment after an accepted set: a deleting value removes the variable, any other value sets it. */
  function Assigned(env: map<string, string>, name: string, value: string): (e: map<string, string>)
    ensures DeletesVariable(value) ==> name !in e
    ensures !DeletesVariable(value) ==> name in e && e[name] == value
    ensures forall k :: k != name ==> (k in e <==> k in env) && (k in env ==> e[k] == env[k])
  {
    if DeletesVariable(value) then env - {name} else env[name := value]
  }

  /** Environment.SetEnvironmentVariable: a refused name is an ArgumentException and changes nothing. */
  function SetVariable(env: map<string, string>, name: string, value: string): (r: Result<map<string, string>>)
    ensures r.Err? <==> !ValidVariableName(name)
    ensures r.Err? ==> r.error == Argument
  {
    if !ValidVariableName(name) then Err(Argument) else Ok(Assigned(env, name, value))
  }

  /** "{NAME}_{part}". */
  function PartName(name: string, part: string): string {
    name + "_" + part
  }

  /**
   * The environment SetNewVersion leaves: the seven variables set in the order the source sets
   * them. Only the first set can throw, since the part names are accepted whenever NAME is
   * (`PublishedInOrder` relates this to the seven calls one by one).
   */
  function Published(env: map<string, string>, name: string, v: VersionInformation): Result<map<string, string>> {
    if !ValidVariableName(name) then Err(Argument)
    else
      var c := v.canonicalPart;
      var e1 := Assigned(env, name, ToString(v));
      var e2 := Assigned(e1, PartName(name, "CANONICAL"), AsFullCanonicalString(v));
      var e3 := Assigned(e2, PartName(name, "MAJOR"), NatToString(c.major));
      var e4 := Assigned(e3, PartName(name, "MINOR"), NatToString(c.minor));
      var e5 := Assigned(e4, PartName(name, "BUILD"), NatToString(c.build));
      var e6 := Assigned(e5, PartName(name, "REVISION"), NatToString(c.revision));
      Ok(Assigned(e6, PartName(name, "SUFFIX"), Trim(v.dynamicSuffix)))
  }

  /** The seven SetEnvironmentVariable calls of SetNewVersion, each able to throw, in order. */
  function SevenSets(env: map<string, string>, name: string, v: VersionInformation): Result<map<string, string>> {
    var c := v.canonicalPart;
    var e1 :- SetVariable(env, name, ToString(v));
    var e2 :- SetVariable(e1, PartName(name, "CANONICAL"), AsFullCanonicalString(v));
    var e3 :- SetVariable(e2, PartName(name, "MAJOR"), NatToString(c.major));
    var e4 :- SetVariable(e3, PartName(name, "MINOR"), NatToString(c.minor));
    var e5 :- SetVariable(e4, PartName(name, "BUILD"), NatToString(c.build));
    var e6 :- SetVariable(e5, PartName(name, "REVISION"), NatToString(c.revision));
    SetVariable(e6, PartName(name, "SUFFIX"), Trim(v.dynamicSuffix))
  }

  /** The value of NAME once trimmed and stripped of every space and tab. */
  function CleanedValue(data: string): string {
    Remove(Remove(Trim(data), ' '), '\t')
  }

  /** What GetCurrentVersion returns for an environment. */
  function EnvVersion(throwIfEmpty: bool, env: map<string, string>, name: string): Result<VersionInformation> {
    if name !in env || IsBlank(env[name]) then Ok(Zero())
    else ParseVersion(throwIfEmpty, CleanedValue(env[name]))
  }

  /** The process environment. */
  class Environment {
    var variables: map<string, string>

    constructor (variables: map<string, string>)
      ensures this.variables == variables
    {
      this.variables := variables;
    }

    method SetEnvironmentVariable(name: string, value: string) returns (r: Outcome)
      modifies this
      ensures r.Fail? <==> SetVariable(old(variables), name, value).Err?
      ensures r.Fail? ==> r.error == Argument && variables == old(variables)
      ensures r.Pass? ==> variables == Assigned(old(variables), name, value)
    {
      if !ValidVariableName(name) {
        return Fail(Argument);
      }
      if DeletesVariable(value) {
        variables := variables - {name};
      } else {
        variables := variables[name := value];
      }
      return Pass;
    }
  }

  class EnvironmentVariableVersionControl {
    const variableName: string
    const versionReader: VersionReader
    const env: Environment

    /** The constructor once its argument checks have passed. */
    constructor (config: EnvStoreConfig, reader: VersionReader, env: Environment)
      requires CheckStoreArguments(Some(config.variableName), true).Pass?
      ensures variableName == config.variableName && versionReader == reader && this.env == env
    {
      variableName := config.variableName;
      versionReader := reader;
      this.env := env;
    }

    /** new EnvironmentVariableVersionControl(config, reader): the argument checks, then the object. */
    static method Create(config: Option<EnvStoreConfig>, reader: Option<VersionReader>, env: Environment)
      returns (r: Result<EnvironmentVariableVersionControl>)
      ensures r.Err? <==> CheckStoreArguments(ConfiguredName(config), reader.Some?).Fail?
      ensures r.Err? ==> r.error == CheckStoreArguments(ConfiguredName(config), reader.Some?).error
      ensures r.Ok? ==> fresh(r.value) && r.value.variableName == config.value.variableName
      ensures r.Ok? ==> r.value.versionReader == reader.value && r.value.env == env
    {
      var check := CheckStoreArguments(ConfiguredName(config), reader.Some?);
      if check.Fail? {
        return Err(check.error);
      }
      var store := new EnvironmentVariableVersionControl(config.value, reader.value, env);
      return Ok(store);
    }

    /**
     * GetCurrentVersion. When NAME is unset or blank the source assembles a fallback from the
     * part variables, but then tests NAME again and returns 0.0.0.0, so the parts never matter.
     */
    method GetCurrentVersion() returns (r: Result<VersionInformation>)
      ensures r == EnvVersion(versionReader.shouldThrowIfEmpty, env.variables, variableName)
    {
      if variableName !in env.variables || IsBlank(env.variables[variableName]) {
        return Ok(Zero());
      }
      var data := env.variables[variableName];
      data := Trim(data);
      data := Remove(Remove(data, ' '), '\t');
      r := versionReader.FromString(data);
    }

    /**
     * SetNewVersion: NAME and the six part variables, in order; an empty suffix deletes NAME_SUFFIX.
     * Only the first call can throw: the part names are NAME with a suffix, so they are refused
     * exactly when NAME is.
     */
    method SetNewVersion(v: VersionInformation) returns (r: Outcome)
      modifies env
      ensures r.Fail? <==> Published(old(env.variables), variableName, v).Err?
      ensures r.Fail? ==> r.error == Argument && env.variables == old(env.variables)
      ensures r.Pass? ==> env.variables == Published(old(env.variables), variableName, v).value
    {
      var c := v.canonicalPart;
      r := env.SetEnvironmentVariable(variableName, ToString(v));
      if r.Fail? {
        return;
      }
      PartNamesValid(variableName);
      var o := env.SetEnvironmentVariable(PartName(variableName, "CANONICAL"), AsFullCanonicalString(v));
      o := env.SetEnvironmentVariable(PartName(variableName, "MAJOR"), NatToString(c.major));
      o := env.SetEnvironmentVariable(PartName(variableName, "MINOR"), NatToString(c.minor));
      o := env.SetEnvironmentVariable(PartName(variableName, "BUILD"), NatToString(c.build));
      o := env.SetEnvironmentVariable(PartName(variableName, "REVISION"), NatToString(c.revision));
      o := env.SetEnvironmentVariable(PartName(variableName, "SUFFIX"), Trim(v.dynamicSuffix));
    }
  }

  // Reading

  /** An unset or blank variable is version 0.0.0.0, whatever the part variables hold. */
  lemma UnsetIsZero(throwIfEmpty: bool, env: map<string, string>, name: string)
    requires name !in env || IsBlank(env[name])
    ensures EnvVersion(throwIfEmpty, env, name) == Ok(Zero())
  {
  }

  /** Cleaning keeps a value that is not blank from becoming blank. */
  lemma {:induction false} CleanedNotBlank(data: string)
    requires !IsBlank(data)
    ensures !IsBlank(CleanedValue(data))
  {
    var t := Trim(data);
    TrimIsTrimmed(data);
    assert t != [] && !IsWhite(t[0]);
    RemoveAppend([t[0]], t[1..], ' ');
    assert t == [t[0]] + t[1..];
    assert Remove([t[0]], ' ') == [t[0]] by {
      assert [t[0]][1..] == [];
    }
    var u := Remove(t, ' ');
    assert u[0] == t[0];
    RemoveAppend([u[0]], u[1..], '\t');
    assert u == [u[0]] + u[1..];
    assert Remove([u[0]], '\t') == [u[0]] by {
      assert [u[0]][1..] == [];
    }
    assert CleanedValue(data)[0] == t[0];
  }

  /** ShouldThrowIfEmpty never matters: a blank value is caught before the reader sees it. */
  lemma EnvIgnoresThrowIfEmpty(env: map<string, string>, name: string)
    ensures EnvVersion(true, env, name) == EnvVersion(false, env, name)
  {
    if name in env && !IsBlank(env[name]) {
      CleanedNotBlank(env[name]);
    }
  }

  // Writing

  /** Part variable names differ from NAME and from each other. */
  lemma PartNamesDistinct(name: string, p: string, q: string)
    ensures PartName(name, p) != name
    ensures PartName(name, p) == PartName(name, q) ==> p == q
  {
    if PartName(name, p) == PartName(name, q) {
      assert p == PartName(name, p)[|name| + 1..];
      assert q == PartName(name, q)[|name| + 1..];
    }
  }

  /** A part name of an accepted NAME is accepted: it starts like NAME and adds no '='. */
  lemma PartNameValid(name: string, p: string)
    requires ValidVariableName(name) && '=' !in p
    ensures ValidVariableName(PartName(name, p))
  {
    var n := PartName(name, p);
    assert n[0] == name[0];
    assert n == name + ("_" + p);
  }

  /** The six part names of an accepted NAME are accepted. */
  lemma PartNamesValid(name: string)
    requires ValidVariableName(name)
    ensures ValidVariableName(PartName(name, "CANONICAL")) && ValidVariableName(PartName(name, "MAJOR"))
    ensures ValidVariableName(PartName(name, "MINOR")) && ValidVariableName(PartName(name, "BUILD"))
    ensures ValidVariableName(PartName(name, "REVISION")) && ValidVariableName(PartName(name, "SUFFIX"))
  {
    PartNameValid(name, "CANONICAL");
    PartNameValid(name, "MAJOR");
    PartNameValid(name, "MINOR");
    PartNameValid(name, "BUILD");
    PartNameValid(name, "REVISION");
    PartNameValid(name, "SUFFIX");
  }

  /**
   * Published is the seven calls made one by one: a refused NAME throws at the first call, and
   * with an accepted NAME none of the seven throws.
   */
  lemma PublishedInOrder(env: map<string, string>, name: string, v: VersionInformation)
    ensures Published(env, name, v) == SevenSets(env, name, v)
  {
    if ValidVariableName(name) {
      PartNamesValid(name);
      var c := v.canonicalPart;
      var e1 := Assigned(env, name, ToString(v));
      var e2 := Assigned(e1, PartName(name, "CANONICAL"), AsFullCanonicalString(v));
      var e3 := Assigned(e2, PartName(name, "MAJOR"), NatToString(c.major));
      var e4 := Assigned(e3, PartName(name, "MINOR"), NatToString(c.minor));
      var e5 := Assigned(e4, PartName(name, "BUILD"), NatToString(c.build));
      var e6 := Assigned(e5, PartName(name, "REVISION"), NatToString(c.revision));
      assert SetVariable(env, name, ToString(v)) == Ok(e1);
      assert SetVariable(e1, PartName(name, "CANONICAL"), AsFullCanonicalString(v)) == Ok(e2);
      assert SetVariable(e2, PartName(name, "MAJOR"), NatToString(c.major)) == Ok(e3);
      assert SetVariable(e3, PartName(name, "MINOR"), NatToString(c.minor)) == Ok(e4);
      assert SetVariable(e4, PartName(name, "BUILD"), NatToString(c.build)) == Ok(e5);
      assert SetVariable(e5, PartName(name, "REVISION"), NatToString(c.revision)) == Ok(e6);
    }
  }

  /** SetNewVersion throws an ArgumentException exactly when NAME is a refused name; it never throws otherwise. */
  lemma PublishedOutcome(env: map<string, string>, name: string, v: VersionInformation)
    ensures SevenSets(env, name, v).Err? <==> !ValidVariableName(name)
    ensures SevenSets(env, name, v).Err? ==> SevenSets(env, name, v).error == Argument
  {
    PublishedInOrder(env, name, v);
  }

  /** Every variable other than the seven is left as it was. */
  lemma PublishedKeepsOthers(env: map<string, string>, name: string, v: VersionInformation, e: map<string, string>, k: string)
    requires Published(env, name, v) == Ok(e)
    requires k != name
    requires k !in {PartName(name, "CANONICAL"), PartName(name, "MAJOR"), PartName(name, "MINOR"),
                    PartName(name, "BUILD"), PartName(name, "REVISION"), PartName(name, "SUFFIX")}
    ensures k in e <==> k in env
    ensures k in env ==> e[k] == env[k]
  {
  }

  /** NAME holds the rendering afterwards. */
  lemma PublishedVersion(env: map<string, string>, name: string, v: VersionInformation, e: map<string, string>)
    requires Published(env, name, v) == Ok(e)
    ensures name in e && e[name] == ToString(v)
  {
    PartNamesDistinct(name, "CANONICAL", "");
    PartNamesDistinct(name, "MAJOR", "");
    PartNamesDistinct(name, "MINOR", "");
    PartNamesDistinct(name, "BUILD", "");
    PartNamesDistinct(name, "REVISION", "");
    PartNamesDistinct(name, "SUFFIX", "");
    assert !DeletesVariable(ToString(v)) by {
      RenderingNotEmpty(v);
    }
  }

  /** The rendering is never empty and never starts with NUL: it starts with the major number. */
  lemma RenderingNotEmpty(v: VersionInformation)
    ensures ToString(v) != "" && IsDigit(ToString(v)[0])
  {
    CanonicalEnds(v.canonicalPart);
    if IsPrerelease(v) {
      ToStringPrerelease(v);
    }
  }

  /**
   * The part variables hold the four numbers, and NAME_SUFFIX the trimmed dynamic suffix, or
   * nothing when that suffix is empty or starts with NUL.
   */
  lemma PublishedParts(env: map<string, string>, name: string, v: VersionInformation, e: map<string, string>)
    requires Published(env, name, v) == Ok(e)
    ensures PartName(name, "MAJOR") in e && e[PartName(name, "MAJOR")] == NatToString(v.canonicalPart.major)
    ensures PartName(name, "REVISION") in e && e[PartName(name, "REVISION")] == NatToString(v.canonicalPart.revision)
    ensures PartName(name, "SUFFIX") in e <==> !DeletesVariable(Trim(v.dynamicSuffix))
    ensures !DeletesVariable(Trim(v.dynamicSuffix)) ==> e[PartName(name, "SUFFIX")] == Trim(v.dynamicSuffix)
  {
    PartNamesDistinct(name, "MAJOR", "MINOR");
    PartNamesDistinct(name, "MAJOR", "BUILD");
    PartNamesDistinct(name, "MAJOR", "REVISION");
    PartNamesDistinct(name, "MAJOR", "SUFFIX");
    PartNamesDistinct(name, "REVISION", "SUFFIX");
  }

  /** NAME_CANONICAL, NAME_MINOR and NAME_BUILD hold the full canonical string and the two numbers. */
  lemma PublishedMiddleParts(env: map<string, string>, name: string, v: VersionInformation, e: map<string, string>)
    requires Published(env, name, v) == Ok(e)
    ensures PartName(name, "CANONICAL") in e && e[PartName(name, "CANONICAL")] == AsFullCanonicalString(v)
    ensures PartName(name, "MINOR") in e && e[PartName(name, "MINOR")] == NatToString(v.canonicalPart.minor)
    ensures PartName(name, "BUILD") in e && e[PartName(name, "BUILD")] == NatToString(v.canonicalPart.build)
  {
    PartNamesDistinct(name, "CANONICAL", "MAJOR");
    PartNamesDistinct(name, "CANONICAL", "MINOR");
    PartNamesDistinct(name, "CANONICAL", "BUILD");
    PartNamesDistinct(name, "CANONICAL", "REVISION");
    PartNamesDistinct(name, "CANONICAL", "SUFFIX");
    PartNamesDistinct(name, "MINOR", "BUILD");
    PartNamesDistinct(name, "MINOR", "REVISION");
    PartNamesDistinct(name, "MINOR", "SUFFIX");
    PartNamesDistinct(name, "BUILD", "REVISION");
    PartNamesDistinct(name, "BUILD", "SUFFIX");
    CanonicalEnds(v.canonicalPart);
  }

  /**
   * SetNewVersion(v) with an accepted name succeeds, and GetCurrentVersion afterwards returns v
   * when its fixed suffix holds no space or tab.
   */
  lemma PublishedReadsBack(throwIfEmpty: bool, env: map<string, string>, name: string, v: VersionInformation)
    requires ValidVariableName(name)
    requires RoundTrips(v)
    requires ' ' !in v.fixedSuffix && '\t' !in v.fixedSuffix
    ensures Published(env, name, v).Ok?
    ensures EnvVersion(throwIfEmpty, Published(env, name, v).value, name) == Ok(v)
  {
    var x := ToString(v);
    PublishedVersion(env, name, v, Published(env, name, v).value);
    RenderedAlphabet(v);
    RenderedTrimmed(v);
    TrimOfTrimmed(x);
    assert ' ' !in x && '\t' !in x;
    RemoveAbsent(x, ' ');
    RemoveAbsent(x, '\t');
    ParseToString(throwIfEmpty, v);
  }
}
