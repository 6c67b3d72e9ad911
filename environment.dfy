/**
 * The `Dingus` value built from the command line and `get_environment`, which turns it
 * into the variables of the environment to enter.
 */
module Environment {
  import opened Wrappers
  import opened Paths
  import opened Errors
  import opened Nesting
  import opened Decimal
  import opened Locator
  import opened Shells
  import opened Host

  /** `serde_yaml::from_str` at type `HashMap<String, String>`: a whole map or an error. */
  type YamlDecoder = string -> Result<VariableMap, YamlError>

  datatype SubCommand = Print | Session | List

  datatype Dingus = Dingus(
    subcommand: SubCommand,
    shell: Shell,
    configDir: Path,
    givenConfigFile: Option<Path>
  )

  /**
   * The shell and config steps of `from_clap`, after the subcommand and its arguments have
   * been read: the shell first (so an unset `$SHELL` fails before anything else), then the
   * `--config` name resolved in the config directory. An unknown config name gives
   * DingusFileNotFound where the source panics (see Locator.ResolveConfigFileChecked).
   */
  method Configure(subcommand: SubCommand, shellArg: Option<string>, configArg: Option<string>,
                   configDir: Path, host: Host) returns (r: Result<Dingus, Error>)
    ensures var shell := SelectShell(shellArg, host.shellVar);
      && (shell.Err? ==> r == Err(shell.error))
      && (shell.Ok? && configArg.None? ==> r == Ok(Dingus(subcommand, shell.value, configDir, None)))
      && (shell.Ok? && configArg.Some? ==>
            var resolved := Resolution(configDir, configArg.value, host.existing);
            && (resolved.Err? ==> r == Err(resolved.error))
            && (resolved.Ok? ==> r == Ok(Dingus(subcommand, shell.value, configDir, resolved.value))))
  {
    var shell := SelectShell(shellArg, host.shellVar);
    if shell.Err? {
      return Err(shell.error);
    }
    var given: Option<Path> := None;
    if configArg.Some? {
      var resolved := ResolveConfigFileChecked(configDir, configArg.value, host.existing);
      if resolved.Err? {
        return Err(resolved.error);
      }
      given := resolved.value;
    }
    return Ok(Dingus(subcommand, shell.value, configDir, given));
  }

  /**
   * `parse_dingus_file`: the file read whole, then decoded whole. A read failure is an
   * IOError, a decoding failure a SerdeYamlError, and nothing is returned in part.
   */
  function ParseDingusFile(path: Path, host: Host, decode: YamlDecoder): (r: Result<VariableMap, Error>)
    ensures r.Err? ==> r.error.IOError? || r.error.SerdeYamlError?
    ensures host.readFile(path).Err? ==> r == Err(IOError(host.readFile(path).error))
    ensures r.Ok? <==> host.readFile(path).Ok? && decode(host.readFile(path).value).Ok?
    ensures r.Ok? ==> r.value == decode(host.readFile(path).value).value
  {
    match host.readFile(path)
    case Err(e) => Err(FromIoError(e))
    case Ok(contents) =>
      match decode(contents)
      case Err(e) => Err(FromYamlError(e))
      case Ok(variables) => Ok(variables)
  }

  /**
   * The file `get_environment` parses: the given one, else the nearest `.dingus` above the
   * working directory; DingusFileNotFound when there is none.
   */
  function FileToParse(given: Option<Path>, host: Host): (r: Result<Path, Error>)
    ensures given.Some? ==> r == Ok(given.value)
    ensures r.Err? ==> r.error.IOError? || r.error == DingusFileNotFound
  {
    match given
    case Some(path) => Ok(path)
    case None =>
      match host.currentDir
      case Err(e) => Err(FromIoError(e))
      case Ok(here) =>
        match WalkUpwards(here, host.existing)
        case None => Err(DingusFileNotFound)
        case Some(marker) => Ok(marker)
  }

  /**
   * What a successful `get_environment` yields: the chosen file parsed, every variable as
   * the file gave it, and `DINGUS_LEVEL` added or replaced with the level.
   */
  predicate IsLoadedEnvironment(environment: VariableMap, given: Option<Path>, host: Host, decode: YamlDecoder)
  {
    var file := FileToParse(given, host);
    && file.Ok?
    && ParseDingusFile(file.value, host, decode).Ok?
    && var parsed := ParseDingusFile(file.value, host, decode).value;
    && environment.Keys == parsed.Keys + {LevelKey}
    && environment[LevelKey] == NatToString(Level(host.inheritedLevel))
    && forall k :: k in parsed && k != LevelKey ==> environment[k] == parsed[k]
  }

  /**
   * `get_environment`: the chosen file parsed and annotated with its level. Every error of
   * the three steps is returned as it is; a success always holds `DINGUS_LEVEL`, and every
   * other variable exactly as the file gave it.
   */
  method GetEnvironment(given: Option<Path>, host: Host, decode: YamlDecoder) returns (r: Result<VariableMap, Error>)
    ensures var file := FileToParse(given, host);
      && (file.Err? ==> r == Err(file.error))
      && (file.Ok? && ParseDingusFile(file.value, host, decode).Err? ==>
            r == Err(ParseDingusFile(file.value, host, decode).error))
    ensures r.Ok? <==> FileToParse(given, host).Ok? && ParseDingusFile(FileToParse(given, host).value, host, decode).Ok?
    ensures r.Ok? ==> IsLoadedEnvironment(r.value, given, host, decode)
    ensures r.Ok? ==> LevelKey in r.value && r.value[LevelKey] == NatToString(Level(host.inheritedLevel))
  {
    var fileToParse: Path;
    match given {
      case Some(path) =>
        fileToParse := path;
      case None =>
        if host.currentDir.Err? {
          return Err(FromIoError(host.currentDir.error));
        }
        var found := WalkUpwards(host.currentDir.value, host.existing);
        if found.None? {
          return Err(DingusFileNotFound);
        }
        fileToParse := found.value;
    }
    var environment := ParseDingusFile(fileToParse, host, decode);
    if environment.Err? {
      return Err(environment.error);
    }
    var annotated := SetDingusLevel(environment.value, host.inheritedLevel);
    return Ok(annotated);
  }

  /** The description of a loaded environment leaves nothing open: there is one such map. */
  lemma LoadedEnvironmentIsUnique(a: VariableMap, b: VariableMap, given: Option<Path>, host: Host, decode: YamlDecoder)
    requires IsLoadedEnvironment(a, given, host, decode) && IsLoadedEnvironment(b, given, host, decode)
    ensures a == b
  {
    forall k | k in a
      ensures a[k] == b[k]
    {
    }
  }

  /** With a given config file the upward search is never consulted: the disk and working directory do not matter. */
  lemma GivenFileSkipsSearch(path: Path, a: Host, b: Host)
    ensures FileToParse(Some(path), a) == FileToParse(Some(path), b) == Ok(path)
  {
  }

  /** Without a given file and with no marker on the way to the root, the result is DingusFileNotFound. */
  lemma NoMarkerNotFound(host: Host)
    requires host.currentDir.Ok?
    requires forall k :: 0 <= k <= |host.currentDir.value| ==>
      !HasMarker(host.currentDir.value[..k], host.existing)
    ensures FileToParse(None, host) == Err(DingusFileNotFound)
  {
  }

  /**
   * Working in `/proj/src/lib` with a marker only in `/proj`, the file parsed is
   * `/proj/.dingus`.
   */
  lemma ProjectMarkerFromSubdirectory(host: Host)
    requires host.currentDir == Ok(["proj", "src", "lib"])
    requires host.existing == {["proj", Marker]}
    ensures FileToParse(None, host) == Ok(["proj", Marker])
  {
    var below := ["src", "lib"];
    assert ["proj"] + [Marker] == ["proj", Marker];
    assert ["proj"] + below == ["proj", "src", "lib"];
    forall j | 0 < j <= |below|
      ensures !HasMarker(["proj"] + below[..j], host.existing)
    {
      assert |["proj"] + below[..j] + [Marker]| != |["proj", Marker]|;
    }
    NearestAncestorWins(["proj"], below, host.existing);
  }
}
