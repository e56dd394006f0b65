/**
 * What a driver package means, said without following extractDriverPackage: which listing,
 * registry entry and file of the package an extraction has to come from.
 */
module Packages {
  import opened Options
  import opened JsObjects
  import opened Bytes
  import opened Bundle
  import Tar

  // ------------------------------------------------------------------ files of the listing

  /** The last listed file of that name has these contents. */
  ghost predicate LastListed(files: seq<Tar.File>, name: Tar.Text, data: seq<byte>)
  {
    exists i :: 0 <= i < |files| && files[i] == Tar.File(name, data) &&
      forall j :: i < j < |files| ==> files[j].name != name
  }

  lemma {:induction false} CollectIs(m: map<Tar.Text, seq<byte>>, files: seq<Tar.File>, name: Tar.Text, data: seq<byte>)
    ensures var out := Tar.Collect(m, files);
      name in out && out[name] == data <==>
        LastListed(files, name, data) ||
        (name in m && m[name] == data && forall i :: 0 <= i < |files| ==> files[i].name != name)
    decreases |files|
  {
    if files != [] {
      var head, rest := files[0], files[1..];
      CollectIs(m[head.name := head.data], rest, name, data);
      LastListedCons(head, rest, name, data);
      assert files == [head] + rest;
      assert (forall i :: 0 <= i < |files| ==> files[i].name != name) <==>
        head.name != name && forall i :: 0 <= i < |rest| ==> rest[i].name != name by { NamesCons(head, rest, name); }
    }
  }

  lemma NamesCons(head: Tar.File, rest: seq<Tar.File>, name: Tar.Text)
    ensures (forall i :: 0 <= i < |[head] + rest| ==> ([head] + rest)[i].name != name) <==>
      head.name != name && forall i :: 0 <= i < |rest| ==> rest[i].name != name
  {
    var all := [head] + rest;
    assert all[0] == head;
    if forall i :: 0 <= i < |all| ==> all[i].name != name {
      forall i | 0 <= i < |rest| ensures rest[i].name != name { assert all[i + 1] == rest[i]; }
    }
  }

  lemma LastListedCons(head: Tar.File, rest: seq<Tar.File>, name: Tar.Text, data: seq<byte>)
    ensures LastListed([head] + rest, name, data) <==>
      || LastListed(rest, name, data)
      || (head == Tar.File(name, data) && forall i :: 0 <= i < |rest| ==> rest[i].name != name)
  {
    var all := [head] + rest;
    if LastListed(all, name, data) {
      var i :| 0 <= i < |all| && all[i] == Tar.File(name, data) && forall j :: i < j < |all| ==> all[j].name != name;
      forall j | i - 1 < j < |rest| ensures rest[j].name != name { assert all[j + 1] == rest[j]; }
      if i > 0 { assert rest[i - 1] == all[i]; }
    }
    if LastListed(rest, name, data) {
      var i :| 0 <= i < |rest| && rest[i] == Tar.File(name, data) &&
        forall j :: i < j < |rest| ==> rest[j].name != name;
      assert all[i + 1] == rest[i];
    }
    if head == Tar.File(name, data) && forall i :: 0 <= i < |rest| ==> rest[i].name != name {
      assert all[0] == head;
    }
  }

  // ----------------------------------------------------------------------- what is unpacked

  /** The package decompresses to a tar archive that lists these files. */
  ghost predicate Lists(lib: Libraries, package: seq<byte>, files: seq<Tar.File>)
  {
    lib.decompress(package).Ok? &&
      Tar.ReadFrom(lib.decompress(package).value, 0, None, lib.utf8) == Tar.Listed(files)
  }

  /** The listing's registry has one driver, `key`, with this entry. */
  ghost predicate Describes(lib: Libraries, files: seq<Tar.File>, key: string, entry: DriverEntry)
  {
    exists json :: LastListed(files, Units("agent-registry.json"), json) && lib.parse(json) == Ok(map[key := entry])
  }

  /** The entry has one artifact: a jar (no platform), or the artifact of a single platform. */
  ghost predicate OnlyArtifact(entry: DriverEntry, platform: Option<string>, a: Artifact)
  {
    match platform
    case None => entry.jar == Some(a) && entry.native == None
    case Some(p) => entry.jar == None && entry.native == Some(map[p := a])
  }

  /** `name` is what follows the last slash of `url`. */
  ghost predicate LastSegment(url: string, name: string)
  {
    '/' !in name && (url == name || exists dir :: url == dir + "/" + name)
  }

  /** What unpacking the only artifact `a` of `entry` from the listing gives. */
  ghost predicate Yields(
      files: seq<Tar.File>, key: string, entry: DriverEntry, platform: Option<string>, a: Artifact, x: Extracted)
  {
    && x.key == key && x.filename != "" && LastSegment(a.url, x.filename)
    && LastListed(files, Units("drivers/" + x.filename), x.bytes) && (a.size > 0 ==> |x.bytes| == a.size)
    && x.sha256 == a.sha256
    && x.kind == (if platform.None? then Jar else Native)
    && x.platforms == (if platform.None? then [] else [platform.value])
    && x.entry == WithArtifact(entry, platform,
      Artifact("offline://" + x.filename, if Truthy(a.sha256) then a.sha256 else None, a.size))
  }

  /** The entry with its only artifact replaced. */
  function WithArtifact(entry: DriverEntry, platform: Option<string>, b: Artifact): (out: DriverEntry)
  {
    if platform.None? then entry.(jar := Some(b)) else entry.(native := Some(map[platform.value := b]))
  }

  /** `x` is the one artifact of the package of driver `key`, ready for the bundle. */
  ghost predicate Unpacks(lib: Libraries, package: seq<byte>, key: string, x: Extracted)
  {
    exists files, entry, platform, a ::
      Lists(lib, package, files) && Describes(lib, files, key, entry) && OnlyArtifact(entry, platform, a) &&
      Yields(files, key, entry, platform, a, x)
  }

  // ------------------------------------------------------------------------------- file names

  lemma {:induction false} SegmentExists(url: string)
    ensures LastSegment(url, AfterLastSlash(url))
    decreases |url|
  {
    var name := AfterLastSlash(url);
    if '/' in url {
      SegmentExists(url[1..]);
      assert url == [url[0]] + url[1..];
      if url[1..] == name {
        assert '/' !in url[1..] && url[0] == '/';
        assert url == "" + "/" + name;
      } else {
        var dir :| url[1..] == dir + "/" + name;
        assert url == ([url[0]] + dir) + "/" + name;
      }
    }
  }

  lemma SegmentUnique(url: string, name: string)
    requires LastSegment(url, name)
    ensures name == FilenameFromUrl(url)
  {
    FilenameFacts(url);
    if url != name {
      var dir :| url == dir + "/" + name;
      CutAtSlash(dir + "/", name);
    }
  }

  lemma SegmentIff(url: string, name: string)
    ensures LastSegment(url, name) <==> name == FilenameFromUrl(url)
  {
    FilenameFacts(url);
    SegmentExists(url);
    if LastSegment(url, name) { SegmentUnique(url, name); }
  }

  // --------------------------------------------------------------------------- one artifact

  lemma ExtractOneIff(
      files: seq<Tar.File>, key: string, entry: DriverEntry, platform: Option<string>, a: Artifact, x: Extracted,
      rebuilt: Artifact -> DriverEntry)
    requires forall b :: rebuilt(b) == WithArtifact(entry, platform, b)
    ensures var kind, platforms :=
        if platform.None? then Jar else Native, if platform.None? then [] else [platform.value];
      ExtractOne(Tar.Collect(map[], files), key, a, kind, platforms, rebuilt) == Ok(x) <==>
        Yields(files, key, entry, platform, a, x)
  {
    hide LastListed, LastSegment, Tar.Collect, FilenameFromUrl, Units;
    SegmentIff(a.url, x.filename);
    SegmentIff(a.url, FilenameFromUrl(a.url));
    var name := FilenameFromUrl(a.url);
    var m := Tar.Collect(map[], files);
    CollectIs(map[], files, Units("drivers/" + name), x.bytes);
    if Units("drivers/" + name) in m {
      CollectIs(map[], files, Units("drivers/" + name), m[Units("drivers/" + name)]);
    }
  }

  /** Which entries have an only artifact, and which one it is. */
  lemma OnlyArtifactIs(entry: DriverEntry, platform: Option<string>, a: Artifact)
    ensures OnlyArtifact(entry, platform, a) <==>
      if entry.jar.Some? && entry.native.None? then platform == None && a == entry.jar.value
      else if entry.native.Some? && |entry.native.value| == 1 && entry.jar.None? then
        platform == Some(OnlyKey(entry.native.value)) && a == entry.native.value[OnlyKey(entry.native.value)]
      else false
  {
    if entry.native.Some? && |entry.native.value| == 1 {
      var m := entry.native.value;
      var p := OnlyKey(m);
      assert m == map[p := m[p]];
    }
    if platform.Some? && entry.native == Some(map[platform.value := a]) {
      assert |map[platform.value := a]| == 1;
      assert OnlyKey(map[platform.value := a]) in map[platform.value := a];
    }
  }

  lemma OneDriver(drivers: map<string, DriverEntry>, key: string, entry: DriverEntry)
    ensures drivers == map[key := entry] <==> |drivers| == 1 && key in drivers && drivers[key] == entry
  {
    if drivers == map[key := entry] { assert |map[key := entry]| == 1; }
    if |drivers| == 1 && key in drivers && drivers[key] == entry {
      var k := OnlyKey(drivers);
      assert drivers.Keys == {k} && key in drivers.Keys;
      assert drivers == map[key := entry];
    }
  }

  /** Extraction succeeds with `x` if and only if `x` is what the package holds. */
  lemma ExtractIff(lib: Libraries, package: seq<byte>, key: string, x: Extracted)
    ensures Extract(lib, package, key) == Ok(x) <==> Unpacks(lib, package, key, x)
  {
    hide Tar.ReadFrom, Tar.Collect, ExtractFiles;
    if lib.decompress(package).Ok? {
      match Tar.ReadFrom(lib.decompress(package).value, 0, None, lib.utf8) {
        case Thrown(_) =>
        case Listed(files) =>
          ExtractFilesIff(lib, files, key, x);
          assert Lists(lib, package, files);
      }
    }
  }

  lemma ExtractFilesIff(lib: Libraries, files: seq<Tar.File>, key: string, x: Extracted)
    ensures ExtractFiles(lib, Tar.Collect(map[], files), key) == Ok(x) <==>
      exists entry, platform, a ::
        Describes(lib, files, key, entry) && OnlyArtifact(entry, platform, a) &&
        Yields(files, key, entry, platform, a, x)
  {
    hide Tar.Collect, LastListed, Units, Yields, ExtractOne, OnlyArtifact;
    var m, name := Tar.Collect(map[], files), Units("agent-registry.json");
    forall json ensures LastListed(files, name, json) <==> name in m && m[name] == json {
      CollectIs(map[], files, name, json);
    }
    if name in m && lib.parse(m[name]).Ok? {
      var drivers := lib.parse(m[name]).value;
      forall entry
        ensures Describes(lib, files, key, entry) <==> |drivers| == 1 && key in drivers && drivers[key] == entry
      {
        OneDriver(drivers, key, entry);
      }
      if |drivers| == 1 && key in drivers { EntryIff(lib, files, key, drivers, x); }
    }
  }

  lemma EntryIff(lib: Libraries, files: seq<Tar.File>, key: string, drivers: map<string, DriverEntry>, x: Extracted)
    requires |drivers| == 1 && key in drivers
    requires var m, name := Tar.Collect(map[], files), Units("agent-registry.json");
      name in m && lib.parse(m[name]) == Ok(drivers)
    ensures ExtractFiles(lib, Tar.Collect(map[], files), key) == Ok(x) <==>
      exists platform, a ::
        OnlyArtifact(drivers[key], platform, a) && Yields(files, key, drivers[key], platform, a, x)
  {
    hide Tar.Collect, Units, Yields, ExtractOne, OnlyArtifact;
    var entry := drivers[key];
    forall platform, a
      ensures OnlyArtifact(entry, platform, a) <==>
        if entry.jar.Some? && entry.native.None? then platform == None && a == entry.jar.value
        else if entry.native.Some? && |entry.native.value| == 1 && entry.jar.None? then
          platform == Some(OnlyKey(entry.native.value)) && a == entry.native.value[OnlyKey(entry.native.value)]
        else false
    {
      OnlyArtifactIs(entry, platform, a);
    }
    if entry.jar.Some? && entry.native.None? {
      ExtractOneIff(files, key, entry, None, entry.jar.value, x, b => entry.(jar := Some(b)));
    } else if entry.native.Some? && |entry.native.value| == 1 && entry.jar.None? {
      var p := OnlyKey(entry.native.value);
      ExtractOneIff(files, key, entry, Some(p), entry.native.value[p], x, b => entry.(native := Some(map[p := b])));
    }
  }

  /** Nothing is unpacked from a package that is no archive, and nothing from one without a registry. */
  lemma ExtractRefusals(lib: Libraries, package: seq<byte>, key: string, files: seq<Tar.File>)
    ensures Extract(lib, package, key) == Err(Unpack) <==> forall some :: !Lists(lib, package, some)
    ensures Lists(lib, package, files) ==>
      (Extract(lib, package, key) == Err(MissingRegistry) <==>
        forall json :: !LastListed(files, Units("agent-registry.json"), json))
  {
    hide Tar.ReadFrom, Tar.Collect, LastListed, Units, ExtractFiles;
    if lib.decompress(package).Ok? {
      match Tar.ReadFrom(lib.decompress(package).value, 0, None, lib.utf8) {
        case Thrown(_) =>
        case Listed(listed) =>
          assert Lists(lib, package, listed);
          var m, name := Tar.Collect(map[], listed), Units("agent-registry.json");
          forall json
            ensures LastListed(listed, name, json) <==> name in m && m[name] == json
          {
            CollectIs(map[], listed, name, json);
          }
          if name in m { assert LastListed(listed, name, m[name]); }
          FilesErrors(lib, m, key);
      }
    }
  }

  lemma FilesErrors(lib: Libraries, files: map<Tar.Text, seq<byte>>, key: string)
    ensures ExtractFiles(lib, files, key) == Err(MissingRegistry) <==> Units("agent-registry.json") !in files
    ensures ExtractFiles(lib, files, key) != Err(Unpack)
  {
    hide Units, FilenameFromUrl;
  }

  // ------------------------------------------------------------------------------- the tasks

  /** A declared digest matches. */
  predicate Digests(lib: Libraries, declared: Option<string>, bytes: seq<byte>)
  {
    declared.None? || declared.value == "" || lib.hash(bytes) == lib.lower(declared.value)
  }

  /**
   * A task delivers `x` if and only if the download succeeded, its digest matches, the package holds
   * `x`, its kind is the planned one, and the artifact's digest matches.
   */
  lemma TaskIff(lib: Libraries, item: Item, fetched: Result<seq<byte>>, x: Extracted)
    ensures Task(lib, item, fetched) == Ok(x) <==>
      && fetched.Ok? && Digests(lib, item.sha256, fetched.value) && Unpacks(lib, fetched.value, item.key, x)
      && x.kind == item.kind && Digests(lib, x.sha256, x.bytes)
  {
    hide Extract, Unpacks;
    if fetched.Ok? { ExtractIff(lib, fetched.value, item.key, x); }
  }

  /** The runtime's task delivers the downloaded bytes if and only if their digest matches. */
  lemma JreTaskIff(lib: Libraries, jre: Jre, fetched: Result<seq<byte>>, bytes: seq<byte>)
    ensures JreTask(lib, jre, fetched) == Ok(bytes) <==> fetched == Ok(bytes) && Digests(lib, jre.sha256, bytes)
  {}

  // ------------------------------------------------------------------------ merging packages

  /** Two packages of one driver can be merged only if both have native artifacts. */
  predicate Compatible(x: Extracted, y: Extracted)
  {
    x.key == y.key ==> x.entry.native.Some? && y.entry.native.Some?
  }

  /** No key is an inherited name, and packages of one driver are all native. */
  ghost predicate Mergeable(xs: seq<Extracted>)
  {
    && (forall i :: 0 <= i < |xs| ==> xs[i].key !in INHERITED)
    && forall i, j :: 0 <= i < j < |xs| ==> Compatible(xs[i], xs[j])
  }

  /** The first package of a driver. */
  ghost predicate FirstOf(xs: seq<Extracted>, i: nat)
  {
    i < |xs| && forall j :: 0 <= j < i ==> xs[j].key != xs[i].key
  }

  /** What a merged registry keeps of its drivers' packages besides the artifacts. */
  ghost predicate KeepsEntries(xs: seq<Extracted>, m: map<string, DriverEntry>)
  {
    && (forall key :: key in m <==> exists i :: 0 <= i < |xs| && xs[i].key == key)
    && (forall i: nat :: FirstOf(xs, i) ==>
      && m[xs[i].key].meta == xs[i].entry.meta && m[xs[i].key].jar == xs[i].entry.jar
      && (m[xs[i].key].native.Some? <==> xs[i].entry.native.Some?))
  }

  /**
   * Merging fails, with the error for duplicates, if and only if two packages of one driver are not
   * both native or a driver has an inherited name; otherwise each driver keeps what its first
   * package says about it.
   */
  lemma {:induction false} MergedIff(xs: seq<Extracted>)
    ensures Merged(xs).Ok? <==> Mergeable(xs)
    ensures Merged(xs).Err? ==> Merged(xs).error == DuplicateDriver
    ensures Merged(xs).Ok? ==> KeepsEntries(xs, Merged(xs).value)
    decreases |xs|
  {
    if xs == [] {
      assert Merged(xs) == Ok(map[]);
    } else {
      var front, x := xs[..|xs| - 1], xs[|xs| - 1];
      MergedIff(front);
      assert xs == front + [x];
      hide Merged, INHERITED;
      MergeableSnoc(front, x);
      if Merged(front).Ok? { MergeStep(front, x, Merged(front).value); }
      MergedUnfold(front, x);
    }
  }

  lemma MergedUnfold(xs: seq<Extracted>, x: Extracted)
    ensures Merged(xs + [x]) == match Merged(xs) case Err(e) => Err(e) case Ok(m) => Merge(m, x)
  {
    hide Merge;
    assert (xs + [x])[..|xs|] == xs;
  }

  lemma MergeableSnoc(xs: seq<Extracted>, x: Extracted)
    ensures Mergeable(xs + [x]) <==>
      Mergeable(xs) && x.key !in INHERITED && forall i :: 0 <= i < |xs| ==> Compatible(xs[i], x)
  {
    hide Compatible, INHERITED;
    var all := xs + [x];
    if Mergeable(all) {
      forall i, j | 0 <= i < j < |xs| ensures Compatible(xs[i], xs[j]) { assert Compatible(all[i], all[j]); }
      forall i | 0 <= i < |xs| ensures Compatible(xs[i], x) { assert Compatible(all[i], all[|xs|]); }
      assert all[|xs|].key !in INHERITED;
      forall i | 0 <= i < |xs| ensures xs[i].key !in INHERITED { assert all[i].key !in INHERITED; }
    }
  }

  lemma FirstExists(xs: seq<Extracted>, k: nat) returns (i: nat)
    requires k < |xs|
    ensures FirstOf(xs, i) && xs[i].key == xs[k].key
    decreases k
  {
    i := k;
    if j: nat :| j < k && xs[j].key == xs[k].key { i := FirstExists(xs, j); }
  }

  /** Merging one more package. */
  lemma MergeStep(xs: seq<Extracted>, x: Extracted, m: map<string, DriverEntry>)
    requires Mergeable(xs) && KeepsEntries(xs, m)
    ensures Merge(m, x).Ok? <==> x.key !in INHERITED && forall i :: 0 <= i < |xs| ==> Compatible(xs[i], x)
    ensures Merge(m, x).Err? ==> Merge(m, x).error == DuplicateDriver
    ensures Merge(m, x).Ok? ==> KeepsEntries(xs + [x], Merge(m, x).value)
  {
    hide INHERITED;
    if x.key in m {
      var k :| 0 <= k < |xs| && xs[k].key == x.key;
      var i := FirstExists(xs, k);
      if m[x.key].native.Some? && x.entry.native.Some? {
        forall j | 0 <= j < |xs| ensures Compatible(xs[j], x) {
          if j != i { assert Compatible(xs[if i < j then i else j], xs[if i < j then j else i]); }
        }
      }
    } else {
      forall j | 0 <= j < |xs| ensures xs[j].key != x.key {}
    }
    if Merge(m, x).Ok? { MergeKeeps(xs, x, m); }
  }

  lemma MergeKeeps(xs: seq<Extracted>, x: Extracted, m: map<string, DriverEntry>)
    requires KeepsEntries(xs, m) && Merge(m, x).Ok?
    ensures KeepsEntries(xs + [x], Merge(m, x).value)
  {
    hide INHERITED;
    var all, out := xs + [x], Merge(m, x).value;
    forall key
      ensures key in out <==> exists i :: 0 <= i < |all| && all[i].key == key
    {
      if key in m {
        var i :| 0 <= i < |xs| && xs[i].key == key;
        assert all[i].key == key;
      }
      if key == x.key { assert all[|xs|].key == key; }
      if i :| 0 <= i < |all| && all[i].key == key {
        if i < |xs| { assert xs[i].key == key; }
      }
    }
    forall i: nat | FirstOf(all, i)
      ensures out[all[i].key].meta == all[i].entry.meta && out[all[i].key].jar == all[i].entry.jar
      ensures out[all[i].key].native.Some? <==> all[i].entry.native.Some?
    {
      if i < |xs| {
        assert FirstOf(xs, i) by { forall j | 0 <= j < i ensures xs[j].key != xs[i].key { assert all[j] == xs[j]; } }
      } else {
        forall j | 0 <= j < |xs| ensures xs[j].key != x.key { assert all[j] == xs[j]; }
      }
    }
  }
}
