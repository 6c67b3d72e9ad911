/**
 * Finding the environment file: an explicit name below the config directory
 * (`resolve_config_file`), or the nearest `.dingus` marker above the working
 * directory (`recursively_walk_upwards_for_dingus_file`).
 */
module Locator {
  import opened Wrappers
  import opened Paths
  import opened Errors
  import opened Text

  /** The marker file name looked for in every ancestor directory. */
  const Marker: string := ".dingus"

  /** The two recognised extensions of a YAML config file. */
  predicate IsConfigExtension(ext: string)
  {
    ext == "yaml" || ext == "yml"
  }

  /** The two siblings probed for an extensionless name. */
  function YamlSibling(path: Path): Path
  {
    WithExtension(path, "yaml")
  }

  function YmlSibling(path: Path): Path
  {
    WithExtension(path, "yml")
  }

  /**
   * What resolving an explicit config name yields. A recognised extension is accepted
   * without looking at the disk; another extension (the empty one after a trailing dot
   * included) is reported as DingusFileNotFound; an extensionless name is resolved to its
   * one existing sibling, and to a conflict naming the `.yaml` then the `.yml` path when
   * both exist. When neither exists the source panics (see ResolveConfigFile); this
   * function gives the DingusFileNotFound that ResolveConfigFileChecked returns there.
   */
  function Resolution(dir: Path, filename: string, existing: set<Path>): (r: Result<Option<Path>, Error>)
    ensures r.Ok? ==> r.value.Some?
    ensures r.Err? ==> r.error == DingusFileNotFound || r.error.ConflictingConfigPaths?
  {
    var path := Join(dir, filename);
    match Extension(path)
    case Some(ext) => if IsConfigExtension(ext) then Ok(Some(path)) else Err(DingusFileNotFound)
    case None =>
      var yaml, yml := YamlSibling(path), YmlSibling(path);
      if yaml in existing && yml in existing then Err(ConflictingConfigPaths(yaml, yml))
      else if yaml in existing then Ok(Some(yaml))
      else if yml in existing then Ok(Some(yml))
      else Err(DingusFileNotFound)
  }

  /** The input on which the source reaches `unreachable!()`: no extension, neither sibling on disk. */
  predicate NoSiblingExists(dir: Path, filename: string, existing: set<Path>)
  {
    var path := Join(dir, filename);
    Extension(path).None? && YamlSibling(path) !in existing && YmlSibling(path) !in existing
  }

  /**
   * `resolve_config_file` as written: the panic of its last match arm is a precondition,
   * which callers cannot in fact guarantee (see UnreachableIsReachable).
   */
  method ResolveConfigFile(dir: Path, filename: string, existing: set<Path>) returns (r: Result<Option<Path>, Error>)
    requires !NoSiblingExists(dir, filename, existing)
    ensures r == Resolution(dir, filename, existing)
  {
    var path := Join(dir, filename);
    match Extension(path) {
      case Some(ext) =>
        if !IsConfigExtension(ext) {
          return Err(DingusFileNotFound);
        }
      case None =>
        var yaml, yml := YamlSibling(path), YmlSibling(path);
        var yamlExists, ymlExists := yaml in existing, yml in existing;
        if yamlExists && !ymlExists {
          path := yaml;
        } else if !yamlExists && ymlExists {
          path := yml;
        } else if yamlExists && ymlExists {
          return Err(ConflictingConfigPaths(yaml, yml));
        } else {
          assert false;
        }
    }
    return Ok(Some(path));
  }

  /** `resolve_config_file` with the unreachable arm reporting DingusFileNotFound instead of panicking. */
  method ResolveConfigFileChecked(dir: Path, filename: string, existing: set<Path>) returns (r: Result<Option<Path>, Error>)
    ensures r == Resolution(dir, filename, existing)
  {
    if NoSiblingExists(dir, filename, existing) {
      return Err(DingusFileNotFound);
    }
    r := ResolveConfigFile(dir, filename, existing);
  }

  /** A user naming a config that has no file reaches the source's `unreachable!()`. */
  lemma UnreachableIsReachable(dir: Path)
    ensures NoSiblingExists(dir, "work", {})
    ensures Resolution(dir, "work", {}) == Err(DingusFileNotFound)
  {
    var name := "work";
    assert '/' !in name by {
      assert forall i :: 0 <= i < |name| ==> name[i] != '/';
    }
    SingleComponent(dir, name);
    assert LastIndexOf(name, '.') == -1;
  }

  /** A name with a recognised extension is taken as it is, whether or not the file exists. */
  lemma ConfigExtensionTakenAsIs(dir: Path, filename: string, existing: set<Path>)
    requires var e := Extension(Join(dir, filename)); e.Some? && IsConfigExtension(e.value)
    ensures Resolution(dir, filename, existing) == Ok(Some(Join(dir, filename)))
    ensures Resolution(dir, filename, existing) == Resolution(dir, filename, {})
  {
  }

  /** Any other extension is refused with the same error as a missing file. */
  lemma OtherExtensionNotFound(dir: Path, filename: string, existing: set<Path>)
    requires var e := Extension(Join(dir, filename)); e.Some? && !IsConfigExtension(e.value)
    ensures Resolution(dir, filename, existing) == Err(DingusFileNotFound)
  {
  }

  /** A trailing dot is an empty extension, and so an unrecognised one. */
  lemma TrailingDotRejected(dir: Path, existing: set<Path>)
    ensures Resolution(dir, "work.", existing) == Err(DingusFileNotFound)
  {
    var name := "work.";
    assert '/' !in name by {
      assert forall i :: 0 <= i < |name| ==> name[i] != '/';
    }
    SingleComponent(dir, name);
    assert LastIndexOf(name, '.') == 4;
    assert ExtOf(name) == Some("");
  }

  /**
   * An extensionless name: exactly one existing sibling is the answer, two are a
   * conflict naming `.yaml` first and `.yml` second.
   */
  lemma ExtensionlessSiblings(dir: Path, filename: string, existing: set<Path>)
    requires Extension(Join(dir, filename)).None?
    ensures var path := Join(dir, filename);
      var yaml, yml := YamlSibling(path), YmlSibling(path);
      && (yaml in existing && yml !in existing ==> Resolution(dir, filename, existing) == Ok(Some(yaml)))
      && (yaml !in existing && yml in existing ==> Resolution(dir, filename, existing) == Ok(Some(yml)))
      && (yaml in existing && yml in existing ==>
            Resolution(dir, filename, existing) == Err(ConflictingConfigPaths(yaml, yml)))
  {
  }

  /**
   * Whatever is resolved below a well-formed directory is a file with a recognised
   * extension, a sibling of the named path (same directory, same depth).
   */
  lemma ResolvedHasConfigExtension(dir: Path, filename: string, existing: set<Path>)
    requires ValidPath(dir)
    requires Resolution(dir, filename, existing).Ok?
    ensures var path := Join(dir, filename);
      var resolved := Resolution(dir, filename, existing).value.value;
      && Extension(resolved).Some? && IsConfigExtension(Extension(resolved).value)
      && |resolved| == |path| && resolved[..|resolved| - 1] == path[..|path| - 1]
  {
    var path := Join(dir, filename);
    assert ValidPath(path);
    if Extension(path).None? && FileName(path).Some? {
      assert path[|path| - 1] != "";
      ExtensionOfWithExtension(path, "yaml");
      ExtensionOfWithExtension(path, "yml");
    }
  }

  /**
   * A conflict carries two existing, distinct files: the `.yaml` one and then the `.yml` one.
   */
  lemma ConflictNamesYamlThenYml(dir: Path, filename: string, existing: set<Path>)
    requires ValidPath(dir)
    requires FileName(Join(dir, filename)).Some?
    requires Resolution(dir, filename, existing).Err?
    requires Resolution(dir, filename, existing).error.ConflictingConfigPaths?
    ensures var e := Resolution(dir, filename, existing).error;
      && e.one in existing && e.two in existing
      && Extension(e.one) == Some("yaml") && Extension(e.two) == Some("yml")
      && e.one != e.two
  {
    var path := Join(dir, filename);
    assert ValidPath(path);
    assert path[|path| - 1] != "";
    ExtensionOfWithExtension(path, "yaml");
    ExtensionOfWithExtension(path, "yml");
  }

  /**
   * The name ".." has no file name, so both "siblings" are the path itself: when it
   * exists, the source reports it as conflicting with itself.
   */
  lemma ParentNameConflictsWithItself(dir: Path, existing: set<Path>)
    requires dir + [".."] in existing
    ensures Resolution(dir, "..", existing) == Err(ConflictingConfigPaths(dir + [".."], dir + [".."]))
  {
    var name := "..";
    assert '/' !in name by {
      assert forall i :: 0 <= i < |name| ==> name[i] != '/';
    }
    SingleComponent(dir, name);
  }

  // ---------------------------------------------------------------------------------------
  // Upward search for the marker file.

  /** Whether directory `dir` holds the marker file. */
  predicate HasMarker(dir: Path, existing: set<Path>)
  {
    dir + [Marker] in existing
  }

  /**
   * `recursively_walk_upwards_for_dingus_file`: the marker of `here` if it exists,
   * otherwise the answer for the parent; None once the root has been checked.
   * The answer is the marker of the nearest directory on the chain from `here` to the
   * root (counting `here` itself) that has one, and None exactly when none has.
   */
  function WalkUpwards(here: Path, existing: set<Path>): (r: Option<Path>)
    ensures r.None? <==> forall k :: 0 <= k <= |here| ==> !HasMarker(here[..k], existing)
    ensures r.Some? ==>
      && 1 <= |r.value| <= |here| + 1
      && r.value == here[..|r.value| - 1] + [Marker]
      && r.value in existing
      && forall j :: |r.value| - 1 < j <= |here| ==> !HasMarker(here[..j], existing)
    decreases |here|
  {
    var candidate := here + [Marker];
    if candidate in existing then
      assert here[..|here|] == here;
      Some(candidate)
    else
      match Parent(here)
      case None =>
        assert here[..0] == here;
        None
      case Some(parent) =>
        assert forall k :: 0 <= k <= |parent| ==> parent[..k] == here[..k];
        assert here[..|here|] == here;
        WalkUpwards(parent, existing)
  }

  /**
   * Closest wins: from any directory below one that holds a marker, with no marker on the
   * way up to it, the search answers that marker and not one further up.
   */
  lemma {:induction false} NearestAncestorWins(ancestor: Path, below: Path, existing: set<Path>)
    requires HasMarker(ancestor, existing)
    requires forall j :: 0 < j <= |below| ==> !HasMarker(ancestor + below[..j], existing)
    ensures WalkUpwards(ancestor + below, existing) == Some(ancestor + [Marker])
    decreases |below|
  {
    if below == [] {
      assert ancestor + below == ancestor;
    } else {
      var here := ancestor + below;
      assert below[..|below|] == below;
      assert !HasMarker(here, existing);
      var up := below[..|below| - 1];
      assert here[..|here| - 1] == ancestor + up;
      forall j | 0 < j <= |up|
        ensures !HasMarker(ancestor + up[..j], existing)
      {
        assert up[..j] == below[..j];
      }
      NearestAncestorWins(ancestor, up, existing);
    }
  }

  /**
   * The search looks only at the marker paths on its own chain: two disks that agree on
   * those give the same answer, whatever else they hold.
   */
  lemma {:induction false} WalkReadsOnlyItsChain(here: Path, a: set<Path>, b: set<Path>)
    requires forall k :: 0 <= k <= |here| ==> (HasMarker(here[..k], a) <==> HasMarker(here[..k], b))
    ensures WalkUpwards(here, a) == WalkUpwards(here, b)
    decreases |here|
  {
    assert here[..|here|] == here;
    if here != [] && !HasMarker(here, a) {
      var parent := here[..|here| - 1];
      forall k | 0 <= k <= |parent|
        ensures HasMarker(parent[..k], a) <==> HasMarker(parent[..k], b)
      {
        assert parent[..k] == here[..k];
      }
      WalkReadsOnlyItsChain(parent, a, b);
    }
  }
}
