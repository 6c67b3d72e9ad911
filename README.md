# dingus: which environment file is loaded, and what comes out of it

`dingus` is a directory-scoped environment loader. It picks a YAML file of variables in one of two ways:

- a name given with `--config`, resolved in `~/.config/dingus`;
- otherwise the `.dingus` file of the nearest directory at or above the working directory.

It parses that file into a map of strings and adds a nesting counter `DINGUS_LEVEL`. With the result it starts a shell or prints export statements. `list` instead shows the nearest `.dingus` and the YAML files of the config directory.

This project models that core in Dafny, following `src/dingus/app.rs` and `src/dingus/error.rs`:

- `Paths`: the parts of Rust's `std::path` that the loader relies on. A path is the sequence of its components below the root, and `[]` is `/`. This covers `push`, `parent`, `file_name`, `extension` with its dot rules, and `with_extension`.
- `Decimal`: `str::parse::<u32>` and `to_string`.
- `Errors`: the `Error` enum, its three `From` conversions and its messages.
- `Shells`: the shell dialect and its selection from `--shell` or `$SHELL`.
- `Locator`: explicit-name resolution (`resolve_config_file`) and the upward marker search (`recursively_walk_upwards_for_dingus_file`).
- `Nesting`: `set_dingus_level`.
- `Host`: the operating system as values. This holds the working directory, the set of paths that exist, file contents, directory listings, `$SHELL` and the inherited `DINGUS_LEVEL`.
- `Environment`: the `Dingus` value built by the shell and config steps of `from_clap`, `parse_dingus_file` and `get_environment`.
- `Catalog`: `list`, with `Vec::sort` modelled as the unique sorted permutation.
- `Printer`: `print`. The unspecified iteration order of the `HashMap` is a nondeterministic choice, which a ghost `order` records.
- `Text`, `Wrappers`: string helpers, and `Option`/`Result`.

Two behaviours of the code are worth stating up front:

- An explicit name with an extension other than `yaml` or `yml` gives `DingusFileNotFound`. There is no separate error for it.
- An extensionless name whose `.yaml` and `.yml` siblings are both missing reaches `unreachable!()`. The model reports `DingusFileNotFound` there instead; see Findings.

## Model

| member | source | states |
|---|---|---|
| `Locator.Resolution` | src/dingus/app.rs:137-161 | Success is always `Some(path)`. The only errors are `DingusFileNotFound` and `ConflictingConfigPaths`. |
| `Locator.ResolveConfigFile` | src/dingus/app.rs:137-161 | As written: given that the `unreachable!()` arm is not reached, the result is `Resolution`. |
| `Locator.ResolveConfigFileChecked` | src/dingus/app.rs:137-161 | Corrected version that is defined for every input. It returns `Resolution`, which is `DingusFileNotFound` where the source panics. |
| `Locator.UnreachableIsReachable` | src/dingus/app.rs:155 | For the name `work` with no sibling on disk, the panicking arm is reached. |
| `Locator.ConfigExtensionTakenAsIs` | src/dingus/app.rs:140-141 | A `yaml`/`yml` extension resolves to `config_dir/filename` unchanged. The result does not depend on which files exist. |
| `Locator.OtherExtensionNotFound` | src/dingus/app.rs:158 | Any other extension gives `Err(DingusFileNotFound)`. |
| `Locator.TrailingDotRejected` | src/dingus/app.rs:140-158 | `work.` has the empty extension and is refused with `DingusFileNotFound`. |
| `Locator.ExtensionlessSiblings` | src/dingus/app.rs:142-154 | For an extensionless name, one existing sibling is the answer. When both exist the result is `ConflictingConfigPaths { one: .yaml, two: .yml }`. |
| `Locator.ResolvedHasConfigExtension` | src/dingus/app.rs:137-161 | A resolved path has extension `yaml` or `yml`. It lies in the directory of the named path, at the same depth. |
| `Locator.ConflictNamesYamlThenYml` | src/dingus/app.rs:151-154 | Both paths of a conflict exist and are distinct. `one` has extension `yaml` and `two` has `yml`. |
| `Locator.ParentNameConflictsWithItself` | src/dingus/app.rs:143-154 | `..` has no file name, so both siblings are the path itself. When it exists, it conflicts with itself. |
| `Locator.WalkUpwards` | src/dingus/app.rs:178-188 | The result is the `.dingus` of the nearest directory on the chain from `here` to the root that has one, counting `here`. It is None exactly when no directory on the chain has one. Each call recurses on a strictly shorter path. |
| `Locator.NearestAncestorWins` | src/dingus/app.rs:178-188 | From below a directory with a marker, with none in between, the search returns that marker and not a more distant one. |
| `Locator.WalkReadsOnlyItsChain` | src/dingus/app.rs:180-182 | The search depends only on the marker paths along its own chain. |
| `Nesting.Level` | src/dingus/app.rs:167-173 | The computed level is at least 1. |
| `Nesting.LevelCases` | src/dingus/app.rs:167-173 | A parsed value N gives N+1. An absent or unparsable value gives 1. |
| `Nesting.SetDingusLevel` | src/dingus/app.rs:163-176 | `DINGUS_LEVEL` is set to the decimal level, replacing any value from the file. The keys are the old keys plus `DINGUS_LEVEL`. Every other entry is unchanged. |
| `Nesting.NestedLevelIsOneDeeper` | src/dingus/app.rs:167-175 | A level written by one run and inherited by the next gives exactly one more. |
| `Nesting.BeyondMaxFallsBack` | src/dingus/app.rs:167-175 | An inherited `4294967296`, the corrected level after `u32::MAX`, gives level 1 again. |
| `Nesting.LevelAsWritten` | src/dingus/app.rs:169 | The source's `u32` sum is always at most `u32::MAX`. |
| `Nesting.AsWrittenWrapsAtMax` | src/dingus/app.rs:169 | At an inherited `u32::MAX`, the source's level wraps to 0, while the intended level is `u32::MAX + 1`. |
| `Nesting.AsWrittenAgreesBelowMax` | src/dingus/app.rs:169 | Below `u32::MAX`, the source's level and the intended level agree. |
| `Decimal.ParseU32` | src/dingus/app.rs:168 | A parsed value is at most `u32::MAX`. The empty string and a leading sign other than `+` are refused. |
| `Decimal.NatToString` | src/dingus/app.rs:175 | The shortest decimal form: all digits, with a leading `0` only for zero. |
| `Decimal.DigitsValueOfNatToString` | src/dingus/app.rs:175 | The decimal form reads back as the same number. |
| `Decimal.ParseU32OfNatToString` | src/dingus/app.rs:168-175 | Every `u32` written by `to_string` parses back to itself. |
| `Decimal.ParseU32BeyondMax` | src/dingus/app.rs:168-175 | A number above `u32::MAX`, written in decimal, does not parse as a `u32`. |
| `Decimal.ParseU32OfPlus` | src/dingus/app.rs:168 | A leading `+` is accepted and does not change the value. |
| `Environment.ParseDingusFile` | src/dingus/app.rs:125-135 | A read failure is `IOError`. A decode failure is `SerdeYamlError`. Success is the whole decoded map and nothing partial. |
| `Environment.FileToParse` | src/dingus/app.rs:193-197 | A given file is used as it is. Otherwise the only errors are `IOError` from `current_dir` and `DingusFileNotFound`. |
| `Environment.GetEnvironment` | src/dingus/app.rs:192-202 | Each step's error is returned unchanged. Success is the parsed map plus `DINGUS_LEVEL`, which is always present and holds the level. |
| `Environment.LoadedEnvironmentIsUnique` | src/dingus/app.rs:192-202 | The description of a successful result fixes the map completely. |
| `Environment.GivenFileSkipsSearch` | src/dingus/app.rs:193-194 | With a given file no search runs: the file chosen does not depend on the working directory or on which paths exist. |
| `Environment.NoMarkerNotFound` | src/dingus/app.rs:195-196 | Without a given file and with no marker up to the root, the result is `DingusFileNotFound`. |
| `Environment.ProjectMarkerFromSubdirectory` | src/dingus/app.rs:195-196 | From `/proj/src/lib`, with a marker only in `/proj`, the file parsed is `/proj/.dingus`. |
| `Environment.Configure` | src/dingus/app.rs:66-112 | The shell is chosen first, so an unset `$SHELL` fails before anything else. Then `--config` is resolved. Each error is returned unchanged. |
| `Shells.LastSegment` | src/dingus/app.rs:73-77 | The result is the suffix after the last `/`, or the whole string when there is none. It never contains a `/`. |
| `Shells.Classify` | src/dingus/app.rs:80-83 | The dialect is Fish exactly when the name is `fish`. Its command is that name. |
| `Shells.SelectShell` | src/dingus/app.rs:66-84 | The command is the last segment of `--shell`, or of `$SHELL` when `--shell` is absent. The dialect is Fish exactly when that segment is `fish`. An unset `$SHELL` is `EnvError` in every case. |
| `Shells.Command` | src/dingus/app.rs:36-41 | The command is the binary the shell carries, in either dialect. |
| `Shells.ClassifyCommand` | src/dingus/app.rs:80-83 | Classifying a shell's command gives that shell back, when its dialect is Fish exactly for `fish`. |
| `Shells.LastSegmentOfFishPath` | src/dingus/app.rs:73-77 | Whatever directory comes before it, `<dir>/fish` has the last segment `fish`. |
| `Shells.LastSegmentAfterSeparator` | src/dingus/app.rs:73-77 | The name after any directory prefix is the last segment. |
| `Shells.FishAnywhere` | src/dingus/app.rs:66-84 | `--shell <dir>/fish` selects `Fish("fish")` whatever `$SHELL` holds. |
| `Shells.UnsetShellVarFails` | src/dingus/app.rs:71 | An unset `$SHELL` is `EnvError` even when `--shell` is given. |
| `Printer.Statement` | src/dingus/app.rs:240-249 | Fish gives `set -gx K "V"; `. Other shells give `export K="V"; `. Nothing is escaped. |
| `Printer.StatementRoundTrip` | src/dingus/app.rs:240-249 | The name and the value can be read back from a statement, even when the value contains quotes, provided the name has no separator. |
| `Printer.Statements` | src/dingus/app.rs:237-250 | There is one statement per key of `order`, in that order. |
| `Printer.ExportStatements` | src/dingus/app.rs:237-254 | `order` lists every key of the map exactly once. The text is the statements in that order, joined by one space. Whatever that order, each entry's statement appears whole in the text, and an empty map prints nothing. |
| `Printer.EveryEntryPrinted` | src/dingus/app.rs:239-254 | For any enumeration of the keys, every entry's statement appears whole in the joined text, and no key gives the empty text. |
| `Printer.Print` | src/dingus/app.rs:233-256 | Errors of `get_environment` are returned unchanged. It succeeds exactly when `get_environment` does, and then the text holds one statement per entry of the loaded environment. |
| `Printer.EveryStatementPrinted` | src/dingus/app.rs:254 | Every statement appears whole in the joined text. |
| `Catalog.UnicodeNames` | src/dingus/app.rs:291-293 | `into_string` drops the non-Unicode names. It never yields more names than it is given, and each name it yields comes from a Unicode entry. When every entry is Unicode, none is dropped. |
| `Catalog.SortNames` | src/dingus/app.rs:304 | The result is sorted ascending and is a permutation of the input. |
| `Catalog.SortedPermutationsEqual` | src/dingus/app.rs:304 | Two sorted permutations of the same names are equal, so the sorted order is unique. |
| `Catalog.CollectConfigs` | src/dingus/app.rs:269-290 | The first pass keeps, in listing order, the readable entries whose extension is `yaml` or `yml`. |
| `Catalog.TwoPassesAreOneFilter` | src/dingus/app.rs:269-294 | The extension pass followed by `into_string` keeps exactly the readable Unicode entries with a config extension, in order. |
| `Catalog.CatalogContents` | src/dingus/app.rs:269-304 | The catalog is sorted. It holds exactly those names, each with its multiplicity. |
| `Catalog.CatalogExample` | src/dingus/app.rs:269-304 | `{a.yaml, b.yml, c.txt, d}` lists as `a.yaml`, `b.yml`. |
| `Catalog.ListingLines` | src/dingus/app.rs:261-310 | With no name the last line is the "No valid config files" message. Otherwise the heading is followed by one bullet per name, in order. There is one extra line exactly when a marker was found, and it comes first and shows the marker's path. |
| `Catalog.CatalogLines` | src/dingus/app.rs:296-310 | No name gives only the "No valid config files" message. Otherwise the heading comes first and is followed by the bullets of the names. |
| `Catalog.SortNamesEmpty` | src/dingus/app.rs:296-304 | Sorting leaves no names exactly when there were none, so testing `is_empty` before the sort gives the same answer as after it. |
| `Catalog.PushCatalog` | src/dingus/app.rs:296-310 | The output is extended by the catalog lines of the sorted names. |
| `Catalog.PushBullets` | src/dingus/app.rs:307-309 | One `- name` line is appended per name, in order. |
| `Catalog.List` | src/dingus/app.rs:258-313 | The `current_dir` and `read_dir` failures are `IOError`, checked in that order. Otherwise the output is the listing of the nearest marker and the catalog. |
| `Errors.FromVarError` | src/dingus/error.rs:39-43 | `?` on an `env::VarError` gives `EnvError` carrying it. |
| `Errors.FromIoError` | src/dingus/error.rs:45-49 | `?` on an `io::Error` gives `IOError` carrying it. |
| `Errors.FromYamlError` | src/dingus/error.rs:51-55 | `?` on a YAML error gives `SerdeYamlError` carrying it. |
| `Errors.ConversionsAreDistinct` | src/dingus/error.rs:39-55 | The three conversions land in different variants. None of them is "not found" or "conflict". |
| `Errors.Message` | src/dingus/error.rs:8-36 | No message is empty. Only the conflict message starts with the conflict heading, and every other message is shorter than that heading. `Errors.ConflictMessageShowsBoth` states the rest of the conflict text. |
| `Errors.ConflictMessageShowsBoth` | src/dingus/error.rs:29-36 | The conflict message shows `one` after the heading and `two` on the last line. |
| `Paths.ExtensionOfWithExtension` | src/dingus/app.rs:143 | `with_extension(e)` on a file name yields a path whose extension is `e`. |
| `Paths.PushDisplayedPath` | src/dingus/app.rs:138 | Pushing the displayed form of a path gives back that path. |

## Left out

- Command-line parsing with clap, and subcommand dispatch (`run`): these belong to a foreign library. The subcommand and the `--shell`/`--config` values are parameters, and `NoSubcommandMatch` is never produced.
- The home-directory lookup and the `~/.config/dingus` existence check: these are environment I/O. The config directory is a parameter, and `ConfigPathNotFound` is never produced.
- `session`: process spawning, the SIGINT handler installed for fish, and `BadShellVar`. This is process and signal plumbing.
- Colours, `println!` and writing to stdout: `List` returns the lines it would print, and `Print` returns the text it would write.
- File reading and YAML decoding are foreign calls. They are the `readFile` field of `Host.Host` and a `YamlDecoder` parameter.
- Real filesystem behaviour: existence is membership in a set of component sequences. `..` is not resolved against the disk, and there are no symlinks or Windows prefixes.
- Non-Unicode text: paths, `$SHELL` and `DINGUS_LEVEL` are Unicode strings. A non-Unicode `DINGUS_LEVEL` is treated as absent, as the source does. Directory entries keep the non-Unicode case, because `list` filters it.
- Path display: `PathDebug` wraps the display form in quotes. It does not escape characters the way Rust's `Debug` does.
- Locator.ResolveConfigFile: the `unreachable!()` panic is modelled as a precondition and not as an abort. `ResolveConfigFileChecked`, used by `Configure`, removes it.
- Nesting.LevelAsWritten: models a release build, where the `u32` sum wraps. A debug build panics at `u32::MAX` instead.
- Nesting.SetDingusLevel: the map that the source updates through `&mut` is passed in and returned.
- Nesting.SetDingusLevel: writes the corrected level `Nesting.Level`. At an inherited `DINGUS_LEVEL` of `4294967295` it writes `4294967296`, where the source writes `0` in a release build and panics in a debug build. `Nesting.LevelAsWritten` models the source's value. A later run nested inside that one cannot parse `4294967296` as a `u32` (`Decimal.ParseU32BeyondMax`), so it falls back to level 1 (`Nesting.BeyondMaxFallsBack`). This is why `Nesting.NestedLevelIsOneDeeper` requires `Level(inherited) <= U32Max`.
- Environment.GetEnvironment: through `SetDingusLevel`, its map holds the corrected level, so at an inherited `u32::MAX` it differs from the source as above.
- Printer.Print: prints the environment of `GetEnvironment`, so at an inherited `u32::MAX` its `DINGUS_LEVEL` statement carries the corrected level.
- Catalog.SortNames: the in-place `Vec::sort` is modelled by its result.
- Printer.ExportStatements: the iteration order of `HashMap` is a nondeterministic choice of key. The model states properties for every order.

## Findings

| source | as written | input that shows it | evidently intended | confidence | as-written member | corrected member |
|---|---|---|---|---|---|---|
| src/dingus/app.rs:155 | an extensionless `--config` name with neither `.yaml` nor `.yml` sibling reaches `unreachable!()` and panics | `--config work` when the config directory holds neither `work.yaml` nor `work.yml` | report `DingusFileNotFound` ("Couldn't find a YAML file to load") | not executed; high | `Locator.ResolveConfigFile` (shown by `Locator.UnreachableIsReachable`) | `Locator.ResolveConfigFileChecked` |
| src/dingus/app.rs:169 | `current_level + DEFAULT_LEVEL` is computed in `u32` | inherited `DINGUS_LEVEL=4294967295` gives level 0 in a release build and a panic in a debug build | one level deeper than the inherited one, `4294967296` | not executed; medium | `Nesting.LevelAsWritten` (shown by `Nesting.AsWrittenWrapsAtMax`) | `Nesting.Level` |
