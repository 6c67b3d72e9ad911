/** The shell the loader speaks to: chosen from `--shell` or `$SHELL`, by its binary name. */
module Shells {
  import opened Wrappers
  import opened Text
  import opened Errors

  /** The two dialects; each carries the binary name used to start it. */
  datatype Shell = BashLike(bin: string) | Fish(bin: string)

  /** `Shell::command`: the program to run for a session. */
  function Command(shell: Shell): (c: string)
    ensures shell == BashLike(c) || shell == Fish(c)
  {
    match shell
    case BashLike(bin) => bin
    case Fish(bin) => bin
  }

  /** `split('/').last()`: what follows the last '/', or the whole text when there is none. */
  function LastSegment(s: string): (b: string)
    ensures '/' !in b
    ensures |b| <= |s| && s[|s| - |b|..] == b
    ensures |b| < |s| ==> s[|s| - |b| - 1] == '/'
  {
    var i := LastIndexOf(s, '/');
    s[i + 1..]
  }

  /** The dialect of a binary name: fish only for exactly "fish". */
  function Classify(bin: string): (shell: Shell)
    ensures Command(shell) == bin
    ensures shell.Fish? <==> bin == "fish"
  {
    if bin == "fish" then Fish(bin) else BashLike(bin)
  }

  /**
   * The shell block of `from_clap`. `shellVar` is `env::var("SHELL")`, which `unwrap_or`
   * evaluates (and `?` propagates) before it looks at `--shell`.
   */
  function SelectShell(shellArg: Option<string>, shellVar: Result<string, VarError>): (r: Result<Shell, Error>)
    ensures r.Err? <==> shellVar.Err?
    ensures shellVar.Err? ==> r.error == EnvError(shellVar.error)
    ensures r.Ok? ==>
      var chosen := if shellArg.Some? then shellArg.value else shellVar.value;
      && Command(r.value) == LastSegment(chosen)
      && (r.value.Fish? <==> LastSegment(chosen) == "fish")
  {
    match shellVar
    case Err(e) => Err(FromVarError(e))
    case Ok(fromEnv) =>
      var chosen := if shellArg.Some? then shellArg.value else fromEnv;
      Ok(Classify(LastSegment(chosen)))
  }

  /** The last segment is the name after the final separator of any directory prefix. */
  lemma LastSegmentAfterSeparator(dir: string, bin: string)
    requires '/' !in bin
    ensures LastSegment(dir + "/" + bin) == bin
    ensures LastSegment(bin) == bin
  {
    LastIndexOfAfter(dir, '/', bin);
    assert (dir + "/" + bin)[|dir| + 1..] == bin;
  }

  /** Classifying the command of a shell gives the shell back, when its dialect matches its name. */
  lemma ClassifyCommand(shell: Shell)
    requires shell.Fish? <==> Command(shell) == "fish"
    ensures Classify(Command(shell)) == shell
  {
  }

  lemma LastSegmentOfFishPath(dir: string)
    ensures LastSegment(dir + "/fish") == "fish"
  {
    LastIndexOfAfter(dir, '/', "fish");
    assert dir + "/fish" == dir + ['/'] + "fish";
    assert (dir + "/fish")[|dir| + 1..] == "fish";
  }

  /** A fish binary anywhere on disk selects the fish dialect, whatever `$SHELL` says. */
  lemma FishAnywhere(dir: string, fromEnv: string)
    ensures SelectShell(Some(dir + "/fish"), Ok(fromEnv)) == Ok(Fish("fish"))
  {
    LastSegmentOfFishPath(dir);
  }

  /** An unset `$SHELL` is an error even when `--shell` names a shell. */
  lemma UnsetShellVarFails(shellArg: string, e: VarError)
    ensures SelectShell(Some(shellArg), Err(e)) == Err(EnvError(e))
  {
  }
}
