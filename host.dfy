/**
 * Everything the loader asks of the operating system, as values: the working directory,
 * which paths exist, file contents, directory listings and two inherited variables.
 */
module Host {
  import opened Wrappers
  import opened Paths
  import opened Errors

  /** A directory entry's name, which the OS need not give as valid Unicode. */
  datatype OsName =
    | Unicode(text: string)
      /** A name that is not Unicode, with what `extension().and_then(to_str)` gives for it. */
    | NonUnicode(unicodeExtension: Option<string>)

  /** One item of `read_dir`: an entry, or an error reading it. */
  datatype DirEntry = Entry(name: OsName) | Unreadable(error: IoError)

  datatype Host = Host(
    /** `env::current_dir()` */
    currentDir: Result<Path, IoError>,
    /** the paths for which `fs::metadata` succeeds (`Path::exists`): files and directories */
    existing: set<Path>,
    /** `File::open` followed by `read_to_string` */
    readFile: Path -> Result<string, IoError>,
    /** `fs::read_dir`, entries in the order the OS yields them */
    readDir: Path -> Result<seq<DirEntry>, IoError>,
    /** `env::var("SHELL")` */
    shellVar: Result<string, VarError>,
    /** `env::var("DINGUS_LEVEL")`, None when it is unset or not Unicode */
    inheritedLevel: Option<string>
  )
}
