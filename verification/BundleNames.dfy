/**
 * Finding files of a finished bundle by name, as the desktop's offline import does. Nothing in
 * the assembler keeps two packages from bringing files of the same name.
 */
module BundleNames {
  import opened Options
  import opened Bytes
  import opened Bundle
  import opened Assembler

  /** The contents of the last file of that name. */
  function ByName(files: seq<File>, name: string): (data: Option<seq<byte>>)
  {
    if files == [] then None
    else
      var last := files[|files| - 1];
      if last.name == name then Some(last.data) else ByName(files[..|files| - 1], name)
  }

  lemma {:induction false} ByNameIs(files: seq<File>, k: nat)
    requires k < |files| && forall l :: k < l < |files| ==> files[l].name != files[k].name
    ensures ByName(files, files[k].name) == Some(files[k].data)
    decreases |files|
  {
    if k < |files| - 1 { ByNameIs(files[..|files| - 1], k); }
  }

  predicate SameSlot(x: Extracted, y: Extracted)
  {
    x.key == y.key && SlotOf(x) == SlotOf(y)
  }

  /** No later package replaces the artifact of package `j` in the registry. */
  ghost predicate Serves(xs: seq<Extracted>, j: nat)
  {
    j < |xs| && forall l :: j < l < |xs| ==> !SameSlot(xs[l], xs[j])
  }

  /** No later package has a file of the name that package `k` has. */
  ghost predicate NamedLast(xs: seq<Extracted>, k: nat)
  {
    k < |xs| && forall l :: k < l < |xs| ==> xs[l].filename != xs[k].filename
  }

  /** The registry's artifact for the slot of `x` leads by its name to the bytes of `x`. */
  ghost predicate Finds(registry: Registry, files: seq<File>, x: Extracted)
  {
    var a := At(registry.drivers, x.key, SlotOf(x));
    a.Some? && OFFLINE <= a.value.url && ByName(files, "drivers/" + a.value.url[|OFFLINE|..]) == Some(x.bytes)
  }

  lemma {:induction false} ServesIsLast(lib: Libraries, xs: seq<Extracted>, j: nat)
    requires AllWell(lib, xs) && Serves(xs, j)
    ensures LastAt(xs, xs[j].key, SlotOf(xs[j])) == ArtifactAt(xs[j].entry, SlotOf(xs[j])) &&
      ArtifactAt(xs[j].entry, SlotOf(xs[j])).Some?
    decreases |xs|
  {
    hide Names, Genuine, ArtifactAt, SlotOf;
    assert Checked(lib, xs[j]);
    if j < |xs| - 1 {
      var front := xs[..|xs| - 1];
      ServesIsLast(lib, front, j);
      assert Checked(lib, xs[|xs| - 1]) && !SameSlot(xs[|xs| - 1], xs[j]);
    }
  }

  /** Every slot of the registry is served by a package. */
  lemma {:induction false} SlotServed(lib: Libraries, xs: seq<Extracted>, key: string, slot: Option<string>)
      returns (j: nat)
    requires AllWell(lib, xs) && LastAt(xs, key, slot).Some?
    ensures Serves(xs, j) && xs[j].key == key && SlotOf(xs[j]) == slot
    decreases |xs|
  {
    hide Names, Genuine, ArtifactAt, SlotOf;
    j := |xs| - 1;
    assert Checked(lib, xs[j]);
    if !(xs[j].key == key && ArtifactAt(xs[j].entry, slot).Some?) {
      j := SlotServed(lib, xs[..j], key, slot);
    }
  }

  lemma {:induction false} SomeNamedLast(xs: seq<Extracted>, j: nat) returns (k: nat)
    requires j < |xs|
    ensures NamedLast(xs, k) && xs[k].filename == xs[j].filename
    decreases |xs| - j
  {
    k := j;
    if l: nat :| j < l < |xs| && xs[l].filename == xs[j].filename { k := SomeNamedLast(xs, l); }
  }

  /** A look-up among all files of the bundle gives the bytes of the last package with that file name. */
  lemma NamedLastFound(xs: seq<Extracted>, jre: Option<Jre>, bytes: seq<byte>, k: nat)
    requires NamedLast(xs, k)
    ensures ByName(DriverFiles(xs) + JreFiles(jre, bytes), "drivers/" + xs[k].filename) == Some(xs[k].bytes)
  {
    hide ByName;
    var files := DriverFiles(xs) + JreFiles(jre, bytes);
    assert files[k] == FileFor(xs[k]);
    forall l | k < l < |files|
      ensures files[l].name != files[k].name
    {
      if l < |xs| {
        assert files[l] == FileFor(xs[l]);
        SamePath(xs[l].filename, xs[k].filename);
      } else {
        assert files[l].name[0] == 'j' && files[k].name[0] == 'd';
      }
    }
    ByNameIs(files, k);
  }

  lemma SamePath(a: string, b: string)
    ensures "drivers/" + a == "drivers/" + b ==> a == b
  {
    assert ("drivers/" + a)[|"drivers/"|..] == a && ("drivers/" + b)[|"drivers/"|..] == b;
  }

  /** Which bytes the registry's artifact for the slot of a serving package leads to. */
  lemma FindsIff(
      lib: Libraries, xs: seq<Extracted>, registry: Registry, jre: Option<Jre>, bytes: seq<byte>, j: nat, k: nat)
    requires AllWell(lib, xs) && Merged(xs) == Ok(registry.drivers) && Serves(xs, j)
    requires NamedLast(xs, k) && xs[k].filename == xs[j].filename
    ensures Finds(registry, DriverFiles(xs) + JreFiles(jre, bytes), xs[j]) <==> xs[k].bytes == xs[j].bytes
  {
    hide ByName, At, Merged, LastAt, NamedLast, DriverFiles, JreFiles, Genuine, ArtifactAt;
    MergedAt(lib, xs, xs[j].key, SlotOf(xs[j]));
    ServesIsLast(lib, xs, j);
    assert Checked(lib, xs[j]);
    var a := ArtifactAt(xs[j].entry, SlotOf(xs[j])).value;
    assert Names(a, "drivers/", FileFor(xs[j]));
    NamedLastFound(xs, jre, bytes, k);
  }

  /**
   * In a finished bundle every registry slot leads by name to the bytes of the package that
   * serves it if and only if that package's bytes are those of the last package with its file name.
   */
  lemma SlotsFoundIff(lib: Libraries, xs: seq<Extracted>, registry: Registry, jre: Option<Jre>, bytes: seq<byte>)
    requires AllWell(lib, xs) && Merged(xs) == Ok(registry.drivers)
    ensures (forall j: nat :: Serves(xs, j) ==> Finds(registry, DriverFiles(xs) + JreFiles(jre, bytes), xs[j]))
      <==> (forall j: nat, k: nat :: Serves(xs, j) && NamedLast(xs, k) && xs[k].filename == xs[j].filename ==>
             xs[k].bytes == xs[j].bytes)
    ensures forall key, slot :: At(registry.drivers, key, slot).Some? ==>
      exists j: nat :: Serves(xs, j) && xs[j].key == key && SlotOf(xs[j]) == slot
  {
    hide Finds, Merged, AllWell, At, LastAt, SlotOf, DriverFiles, JreFiles;
    var files := DriverFiles(xs) + JreFiles(jre, bytes);
    forall j: nat, k: nat | Serves(xs, j) && NamedLast(xs, k) && xs[k].filename == xs[j].filename
      ensures Finds(registry, files, xs[j]) <==> xs[k].bytes == xs[j].bytes
    {
      FindsIff(lib, xs, registry, jre, bytes, j, k);
    }
    forall j: nat | Serves(xs, j)
      ensures exists k: nat :: NamedLast(xs, k) && xs[k].filename == xs[j].filename
    {
      var k := SomeNamedLast(xs, j);
    }
    forall key, slot | At(registry.drivers, key, slot).Some?
      ensures exists j: nat :: Serves(xs, j) && xs[j].key == key && SlotOf(xs[j]) == slot
    {
      MergedAt(lib, xs, key, slot);
      var j := SlotServed(lib, xs, key, slot);
    }
  }

  /** The same for whatever the assembler returns. */
  lemma BundleFoundIff(
      lib: Libraries, plan: Plan, fetched: Fetched, xs: seq<Extracted>, registry: Registry, files: seq<File>)
    requires |fetched| == TaskCount(plan) && PutTogether(lib, plan, fetched, xs, registry, files)
    ensures (forall j: nat :: Serves(xs, j) ==> Finds(registry, files, xs[j]))
      <==> (forall j: nat, k: nat :: Serves(xs, j) && NamedLast(xs, k) && xs[k].filename == xs[j].filename ==>
             xs[k].bytes == xs[j].bytes)
  {
    hide Finds, Merged, Serves, NamedLast, Picked, AllWell, DriverFiles, JreFiles;
    PickedWell(lib, plan, fetched, xs, |Items(plan)|);
    var bytes :| files == DriverFiles(xs) + JreFiles(plan.jre, bytes);
    SlotsFoundIff(lib, xs, registry, plan.jre, bytes);
  }

  /** The package of a driver with one jar of that name. */
  function JarPackage(key: string, filename: string, bytes: seq<byte>): (x: Extracted)
  {
    Extracted(key, DriverEntry("", Some(Artifact(OFFLINE + filename, None, 0)), None), Jar, [], filename, bytes, None)
  }

  /** Two drivers whose jars have one name are assembled, and the first leads to the jar of the second. */
  lemma CollidingPair(lib: Libraries, registry: Registry)
    requires registry.drivers ==
      map["a" := JarPackage("a", "x.jar", [1]).entry, "b" := JarPackage("b", "x.jar", [2]).entry]
    ensures var xs := [JarPackage("a", "x.jar", [1]), JarPackage("b", "x.jar", [2])];
      && AllWell(lib, xs) && Merged(xs) == Ok(registry.drivers)
      && Serves(xs, 0) && !Finds(registry, DriverFiles(xs) + JreFiles(None, []), xs[0])
  {
    var x, y := JarPackage("a", "x.jar", [1]), JarPackage("b", "x.jar", [2]);
    var xs := [x, y];
    JarWell("a", "x.jar", [1]);
    JarWell("b", "x.jar", [2]);
    hide WellExtracted;
    assert "a"[0] != "b"[0];
    PairMerges(x, y, registry.drivers);
    hide Merged;
    FindsIff(lib, xs, registry, None, [], 0, 1);
  }

  lemma JarWell(key: string, filename: string, bytes: seq<byte>)
    requires filename != "" && '/' !in filename
    ensures WellExtracted(JarPackage(key, filename, bytes))
  {
    assert (OFFLINE + filename)[|OFFLINE|..] == filename;
  }

  lemma PairMerges(x: Extracted, y: Extracted, drivers: map<string, DriverEntry>)
    requires x.key == "a" && y.key == "b" && drivers == map["a" := x.entry, "b" := y.entry]
    ensures Merged([x, y]) == Ok(drivers)
  {
    assert [x, y][..1] == [x] && [x][..0] == [];
    assert "a"[0] != "b"[0];
    assert LookUp(map[], "a") == None;
    assert Merged([x]) == Ok(map["a" := x.entry]);
    assert LookUp(map["a" := x.entry], "b") == None;
    assert map["a" := x.entry]["b" := y.entry] == drivers;
  }
}
