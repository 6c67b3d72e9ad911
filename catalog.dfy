/**
 * `list`: the nearest marker, if any, and the config files of the config directory,
 * by name in ascending order.
 */
module Catalog {
  import opened Wrappers
  import opened Paths
  import opened Errors
  import opened Host
  import opened Locator
  import opened Environment

  // ---------------------------------------------------------------------------------------
  // The order of `String`: lexicographic on UTF-8 bytes, which is the order of code points.

  predicate LexLe(a: string, b: string)
    decreases |a|
  {
    a == [] || (b != [] && (a[0] < b[0] || (a[0] == b[0] && LexLe(a[1..], b[1..]))))
  }

  lemma {:induction false} LexLeReflexive(a: string)
    ensures LexLe(a, a)
    decreases |a|
  {
    if a != [] {
      LexLeReflexive(a[1..]);
    }
  }

  lemma {:induction false} LexLeTotal(a: string, b: string)
    ensures LexLe(a, b) || LexLe(b, a)
    decreases |a|
  {
    if a != [] && b != [] && a[0] == b[0] {
      LexLeTotal(a[1..], b[1..]);
    }
  }

  lemma {:induction false} LexLeAntisymmetric(a: string, b: string)
    requires LexLe(a, b) && LexLe(b, a)
    ensures a == b
    decreases |a|
  {
    if a != [] {
      LexLeAntisymmetric(a[1..], b[1..]);
      assert a == [a[0]] + a[1..] && b == [b[0]] + b[1..];
    }
  }

  lemma {:induction false} LexLeTransitive(a: string, b: string, c: string)
    requires LexLe(a, b) && LexLe(b, c)
    ensures LexLe(a, c)
    decreases |a|
  {
    if a != [] && a[0] == b[0] && b[0] == c[0] {
      LexLeTransitive(a[1..], b[1..], c[1..]);
    }
  }

  predicate Sorted(s: seq<string>)
  {
    forall i, j :: 0 <= i < j < |s| ==> LexLe(s[i], s[j])
  }

  // ---------------------------------------------------------------------------------------
  // `Vec::sort` on the names, by its result: the sorted permutation, of which there is one.

  function Insert(x: string, s: seq<string>): (r: seq<string>)
    ensures multiset(r) == multiset(s) + multiset{x}
  {
    if s == [] then [x]
    else if LexLe(x, s[0]) then [x] + s
    else
      assert s == [s[0]] + s[1..];
      [s[0]] + Insert(x, s[1..])
  }

  lemma {:induction false} InsertSorted(x: string, s: seq<string>)
    requires Sorted(s)
    ensures Sorted(Insert(x, s))
  {
    if s == [] {
    } else if LexLe(x, s[0]) {
      forall j | 0 <= j < |s|
        ensures LexLe(x, s[j])
      {
        if j > 0 {
          LexLeTransitive(x, s[0], s[j]);
        }
      }
    } else {
      var rest := Insert(x, s[1..]);
      InsertSorted(x, s[1..]);
      LexLeTotal(x, s[0]);
      forall j | 0 <= j < |rest|
        ensures LexLe(s[0], rest[j])
      {
        assert rest[j] in multiset(rest);
        if rest[j] != x {
          assert rest[j] in multiset(s[1..]);
          var k :| 0 <= k < |s[1..]| && s[1..][k] == rest[j];
          assert s[k + 1] == rest[j];
        }
      }
    }
  }

  /** The names in ascending order: sorted, and a permutation of the input. */
  function SortNames(s: seq<string>): (r: seq<string>)
    ensures Sorted(r) && multiset(r) == multiset(s)
  {
    if s == [] then []
    else
      var rest := SortNames(s[1..]);
      InsertSorted(s[0], rest);
      assert s == [s[0]] + s[1..];
      Insert(s[0], rest)
  }

  lemma SortedHeadIsLeast(s: seq<string>, x: string)
    requires Sorted(s) && x in s
    ensures LexLe(s[0], x)
  {
    var k :| 0 <= k < |s| && s[k] == x;
    if k == 0 {
      LexLeReflexive(x);
    }
  }

  lemma MultisetOfTail(s: seq<string>)
    requires s != []
    ensures multiset(s[1..]) == multiset(s) - multiset{s[0]}
  {
    assert s == [s[0]] + s[1..];
  }

  lemma SortedTail(s: seq<string>)
    requires Sorted(s) && s != []
    ensures Sorted(s[1..])
  {
  }

  /** Two sorted arrangements of the same names start with the same name. */
  lemma SortedHeadsEqual(a: seq<string>, b: seq<string>)
    requires Sorted(a) && Sorted(b) && multiset(a) == multiset(b) && a != []
    ensures b != [] && a[0] == b[0]
  {
    assert a[0] in multiset(b);
    assert b != [] && b[0] in multiset(a);
    SortedHeadIsLeast(b, a[0]);
    SortedHeadIsLeast(a, b[0]);
    LexLeAntisymmetric(a[0], b[0]);
  }

  /** Sorting leaves nothing to choose: two sorted arrangements of the same names are equal. */
  lemma {:induction false} SortedPermutationsEqual(a: seq<string>, b: seq<string>)
    requires Sorted(a) && Sorted(b) && multiset(a) == multiset(b)
    ensures a == b
    decreases |a|
  {
    if a == [] {
      assert |b| == |multiset(b)| == 0;
    } else {
      SortedHeadsEqual(a, b);
      MultisetOfTail(a);
      MultisetOfTail(b);
      SortedTail(a);
      SortedTail(b);
      SortedPermutationsEqual(a[1..], b[1..]);
      assert a == [a[0]] + a[1..] && b == [b[0]] + b[1..];
    }
  }

  // ---------------------------------------------------------------------------------------
  // Which directory entries are listed.

  /** The extension `list` reads off an entry's path, when it is Unicode. */
  function EntryExtension(name: OsName): Option<string>
  {
    match name
    case Unicode(text) => ExtOf(text)
    case NonUnicode(ext) => ext
  }

  /** The first pass keeps readable entries whose extension is yaml or yml. */
  predicate KeptInFirstPass(entry: DirEntry)
  {
    entry.Entry? && EntryExtension(entry.name).Some? && IsConfigExtension(EntryExtension(entry.name).value)
  }

  /** The names the first pass pushes, in listing order. */
  function FirstPass(entries: seq<DirEntry>): seq<OsName>
  {
    if entries == [] then []
    else
      var last := entries[|entries| - 1];
      FirstPass(entries[..|entries| - 1]) + (if KeptInFirstPass(last) then [last.name] else [])
  }

  /** `into_string` then `filter_map(Result::ok)`: the names that are valid Unicode. */
  function UnicodeNames(names: seq<OsName>): (r: seq<string>)
    ensures |r| <= |names|
    ensures forall x :: x in r ==> Unicode(x) in names
    ensures (forall i :: 0 <= i < |names| ==> names[i].Unicode?) ==> |r| == |names|
  {
    if names == [] then []
    else
      (if names[0].Unicode? then [names[0].text] else []) + UnicodeNames(names[1..])
  }

  /** An entry `list` shows: readable, Unicode, with extension yaml or yml. */
  predicate IsListedConfig(entry: DirEntry)
  {
    entry.Entry? && entry.name.Unicode? && ExtOf(entry.name.text).Some? && IsConfigExtension(ExtOf(entry.name.text).value)
  }

  /** The listed names in listing order, filtered in one step. */
  function ListedNames(entries: seq<DirEntry>): seq<string>
  {
    if entries == [] then []
    else
      var last := entries[|entries| - 1];
      ListedNames(entries[..|entries| - 1]) + (if IsListedConfig(last) then [last.name.text] else [])
  }

  lemma {:induction false} UnicodeNamesAppend(a: seq<OsName>, b: seq<OsName>)
    ensures UnicodeNames(a + b) == UnicodeNames(a) + UnicodeNames(b)
  {
    if a == [] {
      assert a + b == b;
    } else {
      assert (a + b)[0] == a[0];
      assert (a + b)[1..] == a[1..] + b;
      UnicodeNamesAppend(a[1..], b);
    }
  }

  /** The two passes of the source keep exactly the entries of the one-step filter, in order. */
  lemma {:induction false} TwoPassesAreOneFilter(entries: seq<DirEntry>)
    ensures UnicodeNames(FirstPass(entries)) == ListedNames(entries)
  {
    if entries != [] {
      var init := entries[..|entries| - 1];
      var last := entries[|entries| - 1];
      var tail := if KeptInFirstPass(last) then [last.name] else [];
      UnicodeNamesAppend(FirstPass(init), tail);
      TwoPassesAreOneFilter(init);
    }
  }

  lemma {:induction false} ListedNamesMembers(entries: seq<DirEntry>, name: string)
    ensures name in ListedNames(entries) <==>
      exists i :: 0 <= i < |entries| && IsListedConfig(entries[i]) && entries[i].name.text == name
  {
    if entries != [] {
      var init := entries[..|entries| - 1];
      ListedNamesMembers(init, name);
      if name in ListedNames(entries) && name !in ListedNames(init) {
        assert IsListedConfig(entries[|entries| - 1]) && entries[|entries| - 1].name.text == name;
      }
      if exists i :: 0 <= i < |entries| && IsListedConfig(entries[i]) && entries[i].name.text == name {
        var i :| 0 <= i < |entries| && IsListedConfig(entries[i]) && entries[i].name.text == name;
        if i < |entries| - 1 {
          assert init[i] == entries[i];
        }
      }
    }
  }

  /** The catalog: the listed names, sorted ascending. */
  function ConfigCatalog(entries: seq<DirEntry>): seq<string>
  {
    SortNames(ListedNames(entries))
  }

  /**
   * The catalog holds exactly the names of readable Unicode entries with extension yaml or
   * yml, each as often as the listing gives it, in ascending order.
   */
  lemma CatalogContents(entries: seq<DirEntry>)
    ensures Sorted(ConfigCatalog(entries))
    ensures multiset(ConfigCatalog(entries)) == multiset(ListedNames(entries))
    ensures forall name :: name in ConfigCatalog(entries) <==>
      exists i :: 0 <= i < |entries| && IsListedConfig(entries[i]) && entries[i].name.text == name
  {
    forall name
      ensures name in ConfigCatalog(entries) <==>
        exists i :: 0 <= i < |entries| && IsListedConfig(entries[i]) && entries[i].name.text == name
    {
      assert name in ConfigCatalog(entries) <==> name in multiset(ConfigCatalog(entries));
      assert name in ListedNames(entries) <==> name in multiset(ListedNames(entries));
      ListedNamesMembers(entries, name);
    }
  }

  lemma ListedNamesSnoc(entries: seq<DirEntry>, last: DirEntry)
    ensures ListedNames(entries + [last]) ==
      ListedNames(entries) + (if IsListedConfig(last) then [last.name.text] else [])
  {
    assert (entries + [last])[..|entries|] == entries;
  }

  /** A name made of a stem, one dot and a dotless extension has that extension. */
  lemma ExtOfDotted(stem: string, ext: string)
    requires stem != [] && ext != [] && '.' !in ext
    ensures ExtOf(stem + "." + ext) == Some(ext)
  {
    var name := stem + "." + ext;
    Text.LastIndexOfAfter(stem, '.', ext);
    assert name == stem + ['.'] + ext;
    assert name[|stem| + 1..] == ext;
  }

  /** An entry named stem, dot, config extension is listed. */
  lemma DottedConfigListed(stem: string, ext: string)
    requires stem != [] && IsConfigExtension(ext)
    ensures IsListedConfig(Entry(Unicode(stem + "." + ext)))
  {
    ExtOfDotted(stem, ext);
  }

  /** An entry named stem, dot, other dotless extension is not listed. */
  lemma DottedOtherNotListed(stem: string, ext: string)
    requires stem != [] && ext != [] && '.' !in ext && !IsConfigExtension(ext)
    ensures !IsListedConfig(Entry(Unicode(stem + "." + ext)))
  {
    ExtOfDotted(stem, ext);
  }

  /** Two listed entries followed by two that are not: the listed names are the first two. */
  lemma ListedOfTwo(x: DirEntry, y: DirEntry, u: DirEntry, v: DirEntry)
    requires IsListedConfig(x) && IsListedConfig(y) && !IsListedConfig(u) && !IsListedConfig(v)
    ensures ListedNames([x, y, u, v]) == [x.name.text, y.name.text]
  {
    ListedNamesSnoc([], x);
    assert [] + [x] == [x];
    ListedNamesSnoc([x], y);
    assert [x] + [y] == [x, y];
    ListedNamesSnoc([x, y], u);
    assert [x, y] + [u] == [x, y, u];
    ListedNamesSnoc([x, y, u], v);
    assert [x, y, u] + [v] == [x, y, u, v];
  }

  /** Names that are already in order are their own catalog. */
  lemma SortedNamesUnchanged(names: seq<string>)
    requires Sorted(names)
    ensures SortNames(names) == names
  {
    SortedPermutationsEqual(SortNames(names), names);
  }

  /**
   * Two listed entries, in order, among two that are not listed: the catalog is the two
   * listed names.
   */
  lemma CatalogOfTwo(x: DirEntry, y: DirEntry, u: DirEntry, v: DirEntry)
    requires IsListedConfig(x) && IsListedConfig(y) && !IsListedConfig(u) && !IsListedConfig(v)
    requires LexLe(x.name.text, y.name.text)
    ensures ConfigCatalog([x, y, u, v]) == [x.name.text, y.name.text]
  {
    ListedOfTwo(x, y, u, v);
    SortedNamesUnchanged([x.name.text, y.name.text]);
  }

  lemma ExampleYaml()
    ensures IsListedConfig(Entry(Unicode("a.yaml")))
  {
    DottedConfigListed("a", "yaml");
    assert "a" + "." + "yaml" == "a.yaml";
  }

  lemma ExampleYml()
    ensures IsListedConfig(Entry(Unicode("b.yml")))
  {
    DottedConfigListed("b", "yml");
    assert "b" + "." + "yml" == "b.yml";
  }

  lemma ExampleTxt()
    ensures !IsListedConfig(Entry(Unicode("c.txt")))
  {
    DottedOtherNotListed("c", "txt");
    assert "c" + "." + "txt" == "c.txt";
  }

  /** `{a.yaml, b.yml, c.txt, d}` lists as `a.yaml`, `b.yml`. */
  lemma CatalogExample()
    ensures ConfigCatalog([Entry(Unicode("a.yaml")), Entry(Unicode("b.yml")),
                           Entry(Unicode("c.txt")), Entry(Unicode("d"))]) == ["a.yaml", "b.yml"]
  {
    ExampleYaml();
    ExampleYml();
    ExampleTxt();
    assert !IsListedConfig(Entry(Unicode("d")));
    assert LexLe("a.yaml", "b.yml");
    CatalogOfTwo(Entry(Unicode("a.yaml")), Entry(Unicode("b.yml")), Entry(Unicode("c.txt")), Entry(Unicode("d")));
  }

  /** Sorting leaves no name out and adds none: the sorted names are empty exactly when the names are. */
  lemma SortNamesEmpty(names: seq<string>)
    ensures SortNames(names) == [] <==> names == []
  {
    var sorted := SortNames(names);
    assert |sorted| == |multiset(sorted)| == |multiset(names)| == |names|;
  }

  // ---------------------------------------------------------------------------------------
  // The listing itself.

  method CollectConfigs(entries: seq<DirEntry>) returns (configs: seq<OsName>)
    ensures configs == FirstPass(entries)
  {
    configs := [];
    var i := 0;
    while i < |entries|
      invariant 0 <= i <= |entries|
      invariant configs == FirstPass(entries[..i])
    {
      assert entries[..i + 1][..i] == entries[..i];
      if KeptInFirstPass(entries[i]) {
        configs := configs + [entries[i].name];
      }
      i := i + 1;
    }
    assert entries[..|entries|] == entries;
  }

  const FoundHeading: string := "Found in path:"
  const AvailableHeading: string := "Available config files:"
  const NoConfigsMessage: string := "No valid config files found in config folder."

  /** The bullet line of one config name. */
  function Bullet(name: string): string
  {
    "- " + name
  }

  /** One bullet line per name, in order. */
  function Bullets(names: seq<string>): (lines: seq<string>)
    ensures |lines| == |names|
    ensures forall i :: 0 <= i < |names| ==> lines[i] == Bullet(names[i])
  {
    seq(|names|, i requires 0 <= i < |names| => Bullet(names[i]))
  }

  /** The `for_each` of `list` that pushes a bullet per name onto the output. */
  method PushBullets(output: seq<string>, names: seq<string>) returns (result: seq<string>)
    ensures result == output + Bullets(names)
  {
    result := output;
    var i := 0;
    while i < |names|
      invariant 0 <= i <= |names|
      invariant result == output + Bullets(names[..i])
    {
      result := result + [Bullet(names[i])];
      i := i + 1;
    }
    assert names[..|names|] == names;
  }

  /** The line for the marker found, if any. */
  /** The line that names the nearest `.dingus` file. */
  function FoundLine(marker: Path): string
  {
    FoundHeading + " " + PathString(marker) + "\n"
  }

  /** The first part of `list`: the found line when a `.dingus` file was found. */
  function FoundLines(found: Option<Path>): seq<string>
  {
    if found.Some? then [FoundLine(found.value)] else []
  }

  /** The heading and one bullet per name, or the "no valid config files" message. */
  function CatalogLines(names: seq<string>): (lines: seq<string>)
    ensures names == [] ==> lines == [NoConfigsMessage]
    ensures names != [] ==> |lines| == |names| + 1 && lines[0] == AvailableHeading && lines[1..] == Bullets(names)
  {
    if names == [] then [NoConfigsMessage] else [AvailableHeading] + Bullets(names)
  }

  /**
   * The lines `list` prints (without colours): the marker found, if any; then the
   * heading and one bullet per name, or the "no valid config files" message when there
   * is no name.
   */
  function ListingLines(found: Option<Path>, names: seq<string>): (lines: seq<string>)
    ensures |lines| >= 1
    ensures names == [] ==> lines[|lines| - 1] == NoConfigsMessage
    ensures names != [] ==>
      && |lines| > |names|
      && lines[|lines| - |names| - 1] == AvailableHeading
      && lines[|lines| - |names|..] == Bullets(names)
    ensures found.Some? <==> |lines| == (if names == [] then 1 else |names| + 1) + 1
    ensures found.Some? ==> lines[0] == FoundLine(found.value)
  {
    match found
    case None => CatalogLines(names)
    case Some(marker) =>
      var lines := [FoundLine(marker)] + CatalogLines(names);
      assert lines[1..] == CatalogLines(names);
      lines
  }

  /** The listing is the found line, if any, followed by the catalog. */
  lemma ListingLinesSplit(found: Option<Path>, names: seq<string>)
    ensures ListingLines(found, names) == FoundLines(found) + CatalogLines(names)
  {
    if found.None? {
      assert FoundLines(found) + CatalogLines(names) == CatalogLines(names);
    }
  }

  /**
   * The second half of `list`: the "no valid config files" message when no name was
   * found, otherwise the heading and the bullets of the names after sorting them.
   */
  method PushCatalog(output: seq<string>, names: seq<string>) returns (result: seq<string>)
    ensures result == output + CatalogLines(SortNames(names))
  {
    SortNamesEmpty(names);
    if names == [] {
      result := output + [NoConfigsMessage];
    } else {
      var sorted := SortNames(names);
      result := output + [AvailableHeading];
      result := PushBullets(result, sorted);
      CatalogLinesAppend(output, sorted);
    }
  }

  lemma CatalogLinesAppend(output: seq<string>, names: seq<string>)
    requires names != []
    ensures output + [AvailableHeading] + Bullets(names) == output + CatalogLines(names)
  {
    assert output + [AvailableHeading] + Bullets(names) == output + ([AvailableHeading] + Bullets(names));
  }

  /**
   * `list`, returning the lines it prints. The working directory and the config directory
   * listing are read in that order and either failure is an IOError.
   */
  method List(d: Dingus, host: Host) returns (r: Result<seq<string>, Error>)
    ensures host.currentDir.Err? ==> r == Err(IOError(host.currentDir.error))
    ensures host.currentDir.Ok? && host.readDir(d.configDir).Err? ==>
      r == Err(IOError(host.readDir(d.configDir).error))
    ensures host.currentDir.Ok? && host.readDir(d.configDir).Ok? ==>
      r == Ok(ListingLines(WalkUpwards(host.currentDir.value, host.existing),
                           ConfigCatalog(host.readDir(d.configDir).value)))
  {
    var output: seq<string> := [];
    if host.currentDir.Err? {
      return Err(FromIoError(host.currentDir.error));
    }
    var found := WalkUpwards(host.currentDir.value, host.existing);
    if found.Some? {
      output := output + [FoundLine(found.value)];
    }
    assert output == FoundLines(found);
    var listing := host.readDir(d.configDir);
    if listing.Err? {
      return Err(FromIoError(listing.error));
    }
    var configs := CollectConfigs(listing.value);
    var foundConfigs := UnicodeNames(configs);
    TwoPassesAreOneFilter(listing.value);
    output := PushCatalog(output, foundConfigs);
    ListingLinesSplit(found, SortNames(foundConfigs));
    return Ok(output);
  }
}
