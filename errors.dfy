/** The loader's error type and the conversions that `?` applies to foreign errors. */
module Errors {
  import opened Paths

  /** `std::io::Error`, carried opaquely. */
  datatype IoError = IoError(description: string)

  /** `std::env::VarError`: the variable is unset, or its value is not Unicode. */
  datatype VarError = NotPresent | NotUnicode

  /** `serde_yaml::Error`, carried opaquely. */
  datatype YamlError = YamlError(description: string)

  datatype Error =
    | EnvError(varError: VarError)
    | IOError(ioError: IoError)
    | SerdeYamlError(yamlError: YamlError)
    | BadShellVar(spawnError: IoError)
    | NoSubcommandMatch
    | DingusFileNotFound
    | ConfigPathNotFound
    | ConflictingConfigPaths(one: Path, two: Path)

  /** `From<env::VarError>`. */
  function FromVarError(e: VarError): (r: Error)
    ensures r.EnvError? && r.varError == e
  {
    EnvError(e)
  }

  /** `From<io::Error>`: also the conversion for `current_dir` and file reading failures. */
  function FromIoError(e: IoError): (r: Error)
    ensures r.IOError? && r.ioError == e
  {
    IOError(e)
  }

  /** `From<serde_yaml::Error>`. */
  function FromYamlError(e: YamlError): (r: Error)
    ensures r.SerdeYamlError? && r.yamlError == e
  {
    SerdeYamlError(e)
  }

  const ConflictHeading: string :=
    "Found two conflicting config files, specify the file extension or consider renaming them:\n"

  /** The `Display` text of each variant. */
  function Message(e: Error): (m: string)
    ensures m != []
    ensures e.ConflictingConfigPaths? ==> |ConflictHeading| <= |m| && m[..|ConflictHeading|] == ConflictHeading
    ensures !e.ConflictingConfigPaths? ==> |m| < |ConflictHeading|
  {
    match e
    case EnvError(_) => "Looks like your $SHELL environment variable isn't set properly"
    case IOError(_) => "The config file you specified doesn't exist or isn't valid unicode"
    case SerdeYamlError(_) => "The config file you specified isn't valid YAML"
    case BadShellVar(_) => "The <SHELL> argument provided to --shell is invalid"
    case NoSubcommandMatch => "Invalid [SUBCOMMAND] specified"
    case DingusFileNotFound => "Couldn't find a YAML file to load"
    case ConfigPathNotFound => "The default config path of `$HOME/.config/dingus` doesn't exist"
    case ConflictingConfigPaths(one, two) => ConflictHeading + PathDebug(one) + "\n" + PathDebug(two)
  }

  /**
   * The conflict message shows both candidates, `one` on the line after the heading and
   * `two` on the last line, so a user can see which two files to disambiguate.
   */
  lemma ConflictMessageShowsBoth(one: Path, two: Path)
    ensures var m := Message(ConflictingConfigPaths(one, two));
      var k := |ConflictHeading|;
      && k + |PathDebug(one)| < |m|
      && m[k..k + |PathDebug(one)|] == PathDebug(one)
      && m[k + |PathDebug(one)|] == '\n'
      && m[k + |PathDebug(one)| + 1..] == PathDebug(two)
  {
    var m := Message(ConflictingConfigPaths(one, two));
    var k := |ConflictHeading|;
    assert m == ConflictHeading + PathDebug(one) + "\n" + PathDebug(two);
  }

  /**
   * Each `?` conversion is one-to-one and lands in its own variant, so no foreign failure
   * is ever reported as a missing or conflicting config file.
   */
  lemma ConversionsAreDistinct(v: VarError, i: IoError, y: YamlError)
    ensures FromVarError(v) != FromIoError(i) && FromIoError(i) != FromYamlError(y)
    ensures FromVarError(v) != FromYamlError(y)
    ensures !FromVarError(v).DingusFileNotFound? && !FromVarError(v).ConflictingConfigPaths?
    ensures !FromIoError(i).DingusFileNotFound? && !FromIoError(i).ConflictingConfigPaths?
    ensures !FromYamlError(y).DingusFileNotFound? && !FromYamlError(y).ConflictingConfigPaths?
  {
  }
}
