/**
 * The offline bundle assembler of docs/lib/agentBundle.ts: packages are downloaded,
 * unpacked and verified, their registry entries merged, and everything is stored in
 * one ZIP whose registry points at files of the same ZIP.
 */
module Bundle {
  import opened Options
  import opened JsObjects
  import opened Bytes
  import Tar
  import Zip

  datatype Error =
    | NoDrivers | Fetch | Unpack | MissingRegistry | BadRegistry | WrongRegistry | MissingFile | SizeMismatch
    | NoFilename | NotOneArtifact | PackageChecksum | ArtifactChecksum | WrongKind | NotDownloaded | DuplicateDriver
    | TooLarge | ZipRefused(why: Zip.ZipError)
  datatype Result<+T> = Ok(value: T) | Err(error: Error)

  /** What the download of each task gave. */
  type Fetched = seq<Result<seq<byte>>>

  datatype Artifact = Artifact(url: string, sha256: Option<string>, size: int)
  /** PackageDriverEntry; `meta` stands for the fields that are only copied. */
  datatype DriverEntry = DriverEntry(meta: string, jar: Option<Artifact>, native: Option<map<string, Artifact>>)
  datatype Kind = Jar | Native
  /** CustomBundleDriverOption */
  datatype Item = Item(key: string, kind: Kind, url: string, sha256: Option<string>)
  datatype Jre = Jre(key: string, version: string, platform: string, url: string, sha256: Option<string>, size: int,
    filename: string)
  datatype Plan = Plan(drivers: seq<Item>, workers: seq<Item>, jre: Option<Jre>)
  datatype Extracted = Extracted(key: string, entry: DriverEntry, kind: Kind, platforms: seq<string>, filename: string,
    bytes: seq<byte>, sha256: Option<string>)
  datatype JreEntry = JreEntry(version: string, platforms: map<string, Artifact>)
  datatype Registry = Registry(jres: map<string, JreEntry>, drivers: map<string, DriverEntry>)
  datatype File = File(name: string, data: seq<byte>)

  /** The libraries: zstd, UTF-8, JSON, SHA-256, lower-casing. */
  datatype Libraries = Libraries(
    decompress: seq<byte> -> Result<seq<byte>>,
    utf8: seq<byte> -> Tar.Text,
    parse: seq<byte> -> Result<map<string, DriverEntry>>,
    hash: seq<byte> -> string,
    lower: string -> string,
    encode: string -> seq<byte>,
    stringify: Registry -> seq<byte>)

  const MAX_BUNDLE_BYTES: nat := 3758096384
  const OFFLINE := "offline://"
  const REGISTRY_NAME := "agent-registry.json"

  // ------------------------------------------------------------------------ file names

  predicate StartsAt(s: string, i: nat, p: string)
  {
    i + |p| <= |s| && s[i..i + |p|] == p
  }

  /** indexOf("offline://", i), or the length if there is none. */
  function Find(s: string, i: nat): (j: nat)
    requires i <= |s|
    ensures i <= j <= |s| && (j < |s| ==> StartsAt(s, j, OFFLINE))
    decreases |s| - i
  {
    if i == |s| || StartsAt(s, i, OFFLINE) then i else Find(s, i + 1)
  }

  /** url.split("offline://").pop() */
  function LastPart(url: string): (r: string)
    decreases |url|
  {
    var j := Find(url, 0);
    if j == |url| then url else LastPart(url[j + |OFFLINE|..])
  }

  /** s.substring(s.lastIndexOf("/") + 1) */
  function AfterLastSlash(s: string): (r: string)
    ensures '/' !in r
    ensures '/' !in s ==> r == s
    decreases |s|
  {
    if '/' !in s then s else AfterLastSlash(s[1..])
  }

  function FilenameFromUrl(url: string): (r: string)
  {
    AfterLastSlash(LastPart(url))
  }

  lemma {:induction false} CutAtSlash(head: string, rest: string)
    requires head != "" && head[|head| - 1] == '/'
    ensures AfterLastSlash(head + rest) == AfterLastSlash(rest)
    decreases |head|
  {
    assert (head + rest)[|head| - 1] == '/';
    if |head| == 1 {
      assert (head + rest)[1..] == rest;
    } else {
      assert (head + rest)[1..] == head[1..] + rest;
      CutAtSlash(head[1..], rest);
    }
  }

  /** The file name is what follows the last slash: it has none, and an offline URL gives its file back. */
  lemma {:induction false} FilenameFacts(url: string)
    ensures FilenameFromUrl(url) == AfterLastSlash(url) && '/' !in FilenameFromUrl(url)
    decreases |url|
  {
    var j := Find(url, 0);
    if j < |url| {
      var k := j + |OFFLINE|;
      assert url[j..k] == OFFLINE && url[k - 1] == OFFLINE[|OFFLINE| - 1];
      assert url == url[..k] + url[k..];
      CutAtSlash(url[..k], url[k..]);
      FilenameFacts(url[k..]);
    }
  }

  lemma OfflineRoundTrip(f: string)
    requires '/' !in f
    ensures FilenameFromUrl(OFFLINE + f) == f
  {
    FilenameFacts(OFFLINE + f);
    CutAtSlash(OFFLINE, f);
  }

  // ---------------------------------------------------------------------- one package

  /** A present, non-empty string. */
  predicate Truthy(s: Option<string>)
  {
    s.Some? && s.value != ""
  }

  function Units(s: string): (t: Tar.Text)
    ensures |t| == |s| && forall i :: 0 <= i < |s| ==> t[i] == s[i] as int
  {
    seq(|s|, i requires 0 <= i < |s| => s[i] as int)
  }

  function Rewrite(a: Artifact): (r: Result<Artifact>)
  {
    var filename := FilenameFromUrl(a.url);
    if filename == "" then Err(NoFilename)
    else Ok(Artifact(OFFLINE + filename, if Truthy(a.sha256) then a.sha256 else None, a.size))
  }

  /** drivers[key]: an inherited property has neither a jar nor native artifacts. */
  function LookUp(drivers: map<string, DriverEntry>, key: string): (r: Option<DriverEntry>)
  {
    if key in drivers then Some(drivers[key]) else if key in INHERITED then Some(DriverEntry("", None, None)) else None
  }

  /** The artifact's file in the package, checked against its declared size. */
  function FileOf(files: map<Tar.Text, seq<byte>>, a: Artifact): (r: Result<seq<byte>>)
  {
    var name := Units("drivers/" + FilenameFromUrl(a.url));
    if name !in files then Err(MissingFile)
    else if a.size > 0 && |files[name]| != a.size then Err(SizeMismatch)
    else Ok(files[name])
  }

  function ExtractOne(
      files: map<Tar.Text, seq<byte>>, key: string, a: Artifact, kind: Kind, platforms: seq<string>,
      rebuilt: Artifact -> DriverEntry): (r: Result<Extracted>)
  {
    match FileOf(files, a)
    case Err(e) => Err(e)
    case Ok(bytes) =>
      match Rewrite(a)
      case Err(e) => Err(e)
      case Ok(b) => Ok(Extracted(key, rebuilt(b), kind, platforms, FilenameFromUrl(a.url), bytes, a.sha256))
  }

  lemma OneKey<T>(m: map<string, T>)
    requires |m| == 1
    ensures exists p :: p in m && m.Keys == {p}
  {
    var p :| p in m.Keys;
    var rest := m.Keys - {p};
    assert |rest| == 0;
    assert m.Keys == {p};
  }

  /** Object.keys(m)[0] of a single-key object. */
  function OnlyKey<T>(m: map<string, T>): (p: string)
    requires |m| == 1
    ensures p in m && m.Keys == {p}
  {
    OneKey(m);
    var p :| p in m && m.Keys == {p};
    p
  }

  function ExtractFiles(lib: Libraries, files: map<Tar.Text, seq<byte>>, key: string): (r: Result<Extracted>)
  {
    if Units(REGISTRY_NAME) !in files then Err(MissingRegistry)
    else match lib.parse(files[Units(REGISTRY_NAME)])
      case Err(e) => Err(BadRegistry)
      case Ok(drivers) =>
        if |drivers| != 1 || LookUp(drivers, key).None? then Err(WrongRegistry)
        else
          var entry := LookUp(drivers, key).value;
          if entry.jar.Some? && entry.native.None? then
            ExtractOne(files, key, entry.jar.value, Jar, [], a => entry.(jar := Some(a)))
          else if entry.native.Some? && |entry.native.value| == 1 && entry.jar.None? then
            var p := OnlyKey(entry.native.value);
            ExtractOne(files, key, entry.native.value[p], Native, [p], a => entry.(native := Some(map[p := a])))
          else Err(NotOneArtifact)
  }

  /** extractDriverPackage */
  function Extract(lib: Libraries, package: seq<byte>, key: string): (r: Result<Extracted>)
  {
    match lib.decompress(package)
    case Err(e) => Err(Unpack)
    case Ok(tar) =>
      match Tar.ToEntries(map[], Tar.ReadFrom(tar, 0, None, lib.utf8))
      case Failed(e) => Err(Unpack)
      case Parsed(files) => ExtractFiles(lib, files, key)
  }

  /** The artifact of an entry: its jar, or the one for a platform. */
  function ArtifactAt(e: DriverEntry, slot: Option<string>): (a: Option<Artifact>)
  {
    match slot
    case None => e.jar
    case Some(p) => if e.native.Some? && p in e.native.value then Some(e.native.value[p]) else None
  }

  function SlotOf(x: Extracted): (slot: Option<string>)
  {
    if x.platforms == [] then None else Some(x.platforms[0])
  }

  /** The file's path and size are what the artifact promises. */
  predicate Names(a: Artifact, dir: string, f: File)
  {
    && OFFLINE <= a.url && f.name == dir + a.url[|OFFLINE|..]
    && (a.size > 0 ==> |f.data| == a.size)
  }

  function FileFor(x: Extracted): (f: File)
  {
    File("drivers/" + x.filename, x.bytes)
  }

  /** An unpacked package has one artifact, whose rewritten URL names the file it came with. */
  ghost predicate WellExtracted(x: Extracted)
  {
    && x.filename != "" && '/' !in x.filename
    && (x.kind == Jar <==> SlotOf(x).None?)
    && (x.kind == Jar <==> x.entry.native.None?)
    && (forall slot :: ArtifactAt(x.entry, slot).Some? <==> slot == SlotOf(x))
    && var a := ArtifactAt(x.entry, SlotOf(x)).value;
       Names(a, "drivers/", FileFor(x)) && a.sha256 == (if Truthy(x.sha256) then x.sha256 else None)
  }

  lemma ExtractOneFacts(files: map<Tar.Text, seq<byte>>, a: Artifact)
    ensures FileOf(files, a).Ok? && Rewrite(a).Ok? ==>
      && FilenameFromUrl(a.url) != "" && '/' !in FilenameFromUrl(a.url)
      && Names(Rewrite(a).value, "drivers/", File("drivers/" + FilenameFromUrl(a.url), FileOf(files, a).value))
      && Rewrite(a).value.sha256 == (if Truthy(a.sha256) then a.sha256 else None)
  {
    FilenameFacts(a.url);
    if Rewrite(a).Ok? {
      var f := FilenameFromUrl(a.url);
      assert (OFFLINE + f)[|OFFLINE|..] == f;
    }
  }

  /** Whatever the package contains, what extraction returns is well formed and belongs to the expected driver. */
  lemma ExtractFacts(lib: Libraries, package: seq<byte>, key: string)
    ensures Extract(lib, package, key).Ok? ==>
      WellExtracted(Extract(lib, package, key).value) && Extract(lib, package, key).value.key == key
  {
    hide FileOf, Rewrite, FilenameFromUrl, Names;
    if Extract(lib, package, key).Ok? {
      var files := Tar.ToEntries(map[], Tar.ReadFrom(lib.decompress(package).value, 0, None, lib.utf8)).entries;
      var entry := LookUp(lib.parse(files[Units(REGISTRY_NAME)]).value, key).value;
      if entry.jar.Some? {
        ExtractOneFacts(files, entry.jar.value);
      } else {
        ExtractOneFacts(files, entry.native.value[OnlyKey(entry.native.value)]);
      }
    }
  }

  // ------------------------------------------------------------------- merging entries

  /** mergeDriverEntry */
  function Merge(target: map<string, DriverEntry>, x: Extracted): (r: Result<map<string, DriverEntry>>)
  {
    match LookUp(target, x.key)
    case None => Ok(target[x.key := x.entry])
    case Some(existing) =>
      if existing.native.Some? && x.entry.native.Some? then
        Ok(target[x.key := existing.(native := Some(existing.native.value + x.entry.native.value))])
      else Err(DuplicateDriver)
  }

  function Merged(xs: seq<Extracted>): (r: Result<map<string, DriverEntry>>)
  {
    if xs == [] then Ok(map[])
    else match Merged(xs[..|xs| - 1])
      case Err(e) => Err(e)
      case Ok(m) => Merge(m, xs[|xs| - 1])
  }

  function At(m: map<string, DriverEntry>, key: string, slot: Option<string>): (a: Option<Artifact>)
  {
    if key in m then ArtifactAt(m[key], slot) else None
  }

  /** The last package that provides a slot. */
  function LastAt(xs: seq<Extracted>, key: string, slot: Option<string>): (a: Option<Artifact>)
  {
    if xs == [] then None
    else
      var x := xs[|xs| - 1];
      if x.key == key && ArtifactAt(x.entry, slot).Some? then ArtifactAt(x.entry, slot)
      else LastAt(xs[..|xs| - 1], key, slot)
  }

  /** The file has the digest the artifact declares, if it declares one. */
  predicate Genuine(lib: Libraries, a: Artifact, f: File)
  {
    a.sha256.Some? ==> lib.hash(f.data) == lib.lower(a.sha256.value)
  }

  /** A package as its task leaves it: unpacked, and its artifact's digest checked. */
  ghost predicate Checked(lib: Libraries, x: Extracted)
  {
    WellExtracted(x) && Genuine(lib, ArtifactAt(x.entry, SlotOf(x)).value, FileFor(x))
  }

  ghost predicate AllWell(lib: Libraries, xs: seq<Extracted>)
  {
    forall i :: 0 <= i < |xs| ==> Checked(lib, xs[i])
  }

  lemma MergeAt(m: map<string, DriverEntry>, x: Extracted, key: string, slot: Option<string>)
    requires WellExtracted(x) && Merge(m, x).Ok?
    ensures At(Merge(m, x).value, key, slot)
      == if x.key == key && ArtifactAt(x.entry, slot).Some? then ArtifactAt(x.entry, slot) else At(m, key, slot)
  {
    assert ArtifactAt(x.entry, None) == x.entry.jar;
  }

  /** The merged registry holds, for every driver and platform, the artifact of the last package providing it. */
  lemma {:induction false} MergedAt(lib: Libraries, xs: seq<Extracted>, key: string, slot: Option<string>)
    requires AllWell(lib, xs) && Merged(xs).Ok?
    ensures At(Merged(xs).value, key, slot) == LastAt(xs, key, slot)
    decreases |xs|
  {
    hide WellExtracted, Merge, At, Genuine;
    if xs == [] {
      NothingAt(key, slot);
    } else {
      var front := xs[..|xs| - 1];
      MergedAt(lib, front, key, slot);
      MergeAt(Merged(front).value, xs[|xs| - 1], key, slot);
    }
  }

  lemma NothingAt(key: string, slot: Option<string>)
    ensures At(map[], key, slot) == None
  {}

  /** What is found last was provided by some package. */
  lemma {:induction false} LastAtFound(xs: seq<Extracted>, key: string, slot: Option<string>) returns (j: nat)
    requires LastAt(xs, key, slot).Some?
    ensures j < |xs| && xs[j].key == key && ArtifactAt(xs[j].entry, slot) == LastAt(xs, key, slot)
    decreases |xs|
  {
    j := |xs| - 1;
    if !(xs[j].key == key && ArtifactAt(xs[j].entry, slot).Some?) { j := LastAtFound(xs[..j], key, slot); }
  }

  lemma {:induction false} LastAtKeeps(xs: seq<Extracted>, j: nat, slot: Option<string>)
    requires j < |xs| && ArtifactAt(xs[j].entry, slot).Some?
    ensures LastAt(xs, xs[j].key, slot).Some?
    decreases |xs|
  {
    if j < |xs| - 1 { LastAtKeeps(xs[..|xs| - 1], j, slot); }
  }

  // -------------------------------------------------------------------------- the tasks

  /** One package task, given what its download gave. */
  function Task(lib: Libraries, item: Item, fetched: Result<seq<byte>>): (r: Result<Extracted>)
  {
    match fetched
    case Err(e) => Err(Fetch)
    case Ok(package) =>
      if Truthy(item.sha256) && lib.hash(package) != lib.lower(item.sha256.value) then Err(PackageChecksum)
      else match Extract(lib, package, item.key)
        case Err(e) => Err(e)
        case Ok(x) =>
          if x.kind != item.kind then Err(WrongKind)
          else if Truthy(x.sha256) && lib.hash(x.bytes) != lib.lower(x.sha256.value) then Err(ArtifactChecksum)
          else Ok(x)
  }

  function JreTask(lib: Libraries, jre: Jre, fetched: Result<seq<byte>>): (r: Result<seq<byte>>)
  {
    match fetched
    case Err(e) => Err(Fetch)
    case Ok(bytes) =>
      if Truthy(jre.sha256) && lib.hash(bytes) != lib.lower(jre.sha256.value) then Err(PackageChecksum) else Ok(bytes)
  }

  /** A task that succeeds delivers a package of the planned driver and kind whose declared digests both match. */
  lemma TaskFacts(lib: Libraries, item: Item, fetched: Result<seq<byte>>)
    ensures Task(lib, item, fetched).Ok? ==>
      var x := Task(lib, item, fetched).value; Checked(lib, x) && x.key == item.key && x.kind == item.kind
    ensures Task(lib, item, fetched).Ok? && Truthy(item.sha256) ==>
      lib.hash(fetched.value) == lib.lower(item.sha256.value)
  {
    hide Extract, ArtifactAt, Names;
    if fetched.Ok? { ExtractFacts(lib, fetched.value, item.key); }
  }
}
