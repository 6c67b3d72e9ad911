/**
 * The part of Rust's `std::path` that the loader relies on, over absolute paths
 * written as their sequence of components below the root (`[]` is `/`).
 */
module Paths {
  import opened Wrappers
  import opened Text

  type Path = seq<string>

  /** A component as `Path::components` yields it after a push: never empty, never ".", no separator. */
  predicate IsNormal(c: string)
  {
    c != "" && c != "." && '/' !in c
  }

  predicate ValidPath(p: Path)
  {
    forall i :: 0 <= i < |p| ==> IsNormal(p[i])
  }

  /** The components of a string path: empty and "." pieces between separators vanish. */
  function Components(s: string): (p: Path)
    ensures ValidPath(p)
    decreases |s|
  {
    if s == [] then []
    else
      var i := IndexOf(s, '/');
      var head := s[..i];
      var rest := if i < |s| then Components(s[i + 1..]) else [];
      if head == "" || head == "." then rest else [head] + rest
  }

  /** `PathBuf::push`: a relative name is appended below `dir`, an absolute one replaces it. */
  function Join(dir: Path, name: string): (p: Path)
    ensures ValidPath(dir) ==> ValidPath(p)
  {
    if |name| > 0 && name[0] == '/' then Components(name) else dir + Components(name)
  }

  /** `Path::parent`: None only at the root. */
  function Parent(p: Path): (r: Option<Path>)
    ensures r.None? <==> p == []
    ensures r.Some? ==> |r.value| + 1 == |p| && r.value == p[..|r.value|]
  {
    if p == [] then None else Some(p[..|p| - 1])
  }

  /** `Path::file_name`: the last component, except at the root or after "..". */
  function FileName(p: Path): (r: Option<string>)
    ensures r.Some? ==> |p| > 0 && r.value == p[|p| - 1] && r.value != ".."
    ensures r.None? ==> p == [] || p[|p| - 1] == ".."
  {
    if p == [] || p[|p| - 1] == ".." then None else Some(p[|p| - 1])
  }

  /**
   * The extension of a file name, split at its last dot: none without a dot or when
   * the only dot leads the name (".dingus"); the empty string after a trailing dot.
   */
  function ExtOf(name: string): (r: Option<string>)
    ensures r.Some? ==> '.' !in r.value && name != ".."
    ensures '.' !in name ==> r.None?
  {
    var i := LastIndexOf(name, '.');
    if name == ".." || i <= 0 then None else Some(name[i + 1..])
  }

  /** `Path::file_stem`: the name without its extension and the dot before it. */
  function Stem(name: string): string
  {
    var i := LastIndexOf(name, '.');
    if name == ".." || i <= 0 then name else name[..i]
  }

  /** `Path::extension`, restricted to names that are valid Unicode. */
  function Extension(p: Path): Option<string>
  {
    match FileName(p)
    case None => None
    case Some(name) => ExtOf(name)
  }

  /** `Path::with_extension`: the file name's stem with `ext` put after it; no change without a file name. */
  function WithExtension(p: Path, ext: string): (r: Path)
    ensures |r| == |p| && (p != [] ==> r[..|r| - 1] == p[..|p| - 1])
  {
    match FileName(p)
    case None => p
    case Some(name) => p[..|p| - 1] + [Stem(name) + (if ext == "" then "" else "." + ext)]
  }

  /** The path as `to_string_lossy` shows it. */
  function PathString(p: Path): string
  {
    "/" + JoinWith(p, "/")
  }

  /** The path as `{:?}` shows it: the display form in double quotes. */
  function PathDebug(p: Path): string
  {
    "\"" + PathString(p) + "\""
  }

  /** An extension given to a file name is the extension read back from the result. */
  lemma {:induction false} ExtensionOfWithExtension(p: Path, ext: string)
    requires FileName(p).Some? && FileName(p).value != ""
    requires ext != "" && '.' !in ext
    ensures Extension(WithExtension(p, ext)) == Some(ext)
    ensures FileName(WithExtension(p, ext)) == Some(Stem(FileName(p).value) + "." + ext)
  {
    var name := FileName(p).value;
    var stem := Stem(name);
    var i := LastIndexOf(name, '.');
    assert stem != "" by {
      if !(name == ".." || i <= 0) {
        assert |name[..i]| == i;
      }
    }
    var renamed := stem + "." + ext;
    var r := WithExtension(p, ext);
    assert stem + ("." + ext) == renamed;
    assert r == p[..|p| - 1] + [renamed];
    assert renamed != ".." by {
      assert |renamed| >= 3;
    }
    assert FileName(r) == Some(renamed);
    LastIndexOfAfter(stem, '.', ext);
    assert renamed[|stem| + 1..] == ext;
  }

  /** Pushing the displayed form of a path gives back the same path. */
  lemma PushDisplayedPath(dir: Path, p: Path)
    requires ValidPath(p)
    ensures Join(dir, PathString(p)) == p
  {
    var s := PathString(p);
    assert s == "/" + JoinWith(p, "/");
    assert s[0] == '/';
    assert IndexOf(s, '/') == 0;
    assert s[1..] == JoinWith(p, "/");
    ComponentsOfJoin(p);
  }

  /** A relative name without separators is pushed as one component. */
  lemma SingleComponent(dir: Path, name: string)
    requires IsNormal(name)
    ensures Components(name) == [name]
    ensures Join(dir, name) == dir + [name]
  {
    assert IndexOf(name, '/') == |name|;
    assert name[..|name|] == name;
  }

  /** A normal component followed by a separator splits off as the first component. */
  lemma ComponentsAfterSeparator(head: string, rest: string)
    requires IsNormal(head)
    ensures Components(head + "/" + rest) == [head] + Components(rest)
  {
    var s := head + "/" + rest;
    IndexOfFirst(head, '/', rest);
    assert s[..|head|] == head;
    assert s[|head| + 1..] == rest;
  }

  /** Components undoes joining valid components with the separator. */
  lemma {:induction false} ComponentsOfJoin(p: Path)
    requires ValidPath(p)
    ensures Components(JoinWith(p, "/")) == p
  {
    if |p| == 1 {
      assert JoinWith(p, "/") == p[0];
      assert IndexOf(p[0], '/') == |p[0]|;
      assert p[0][..|p[0]|] == p[0];
    } else if |p| > 1 {
      assert JoinWith(p, "/") == p[0] + "/" + JoinWith(p[1..], "/");
      ComponentsAfterSeparator(p[0], JoinWith(p[1..], "/"));
      ComponentsOfJoin(p[1..]);
      assert [p[0]] + p[1..] == p;
    }
  }
}
