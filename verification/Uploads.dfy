/**
 * uploadIssueImages of docs/worker.ts: when an upload fails, the images stored before it are
 * deleted again, and a deletion that fails is ignored.
 */
module Uploads {
  import opened Bytes

  datatype Image = Image(key: string, bytes: seq<byte>)

  type Objects = map<string, seq<byte>>

  /** An object store whose writes succeed `budget` more times, and whose deletions fail for the keys in `stuck`. */
  class Bucket {
    var objects: Objects
    var budget: nat
    const stuck: set<string>

    constructor (objects: Objects, budget: nat, stuck: set<string>)
      ensures this.objects == objects && this.budget == budget && this.stuck == stuck
    {
      this.objects, this.budget, this.stuck := objects, budget, stuck;
    }

    method Put(key: string, bytes: seq<byte>) returns (ok: bool)
      modifies this
      ensures ok <==> old(budget) > 0
      ensures objects == if ok then old(objects)[key := bytes] else old(objects)
      ensures budget == if ok then old(budget) - 1 else 0
    {
      ok := budget > 0;
      if ok { objects, budget := objects[key := bytes], budget - 1; }
    }

    /** delete(key).catch(() => undefined) */
    method Delete(key: string)
      modifies this`objects
      ensures objects == if key in stuck then old(objects) else old(objects) - {key}
    {
      if key !in stuck { objects := objects - {key}; }
    }
  }

  function Keys(images: seq<Image>): (keys: set<string>)
  {
    set i | 0 <= i < |images| :: images[i].key
  }

  function Stored(before: Objects, images: seq<Image>): (after: Objects)
  {
    if images == [] then before
    else Stored(before, images[..|images| - 1])[images[|images| - 1].key := images[|images| - 1].bytes]
  }

  /** The store after `uploaded` was stored and deleted again. */
  function CleanedUp(before: Objects, uploaded: seq<Image>, stuck: set<string>): (after: Objects)
  {
    Stored(before, uploaded) - (Keys(uploaded) - stuck)
  }

  /** uploadIssueImages: all images are stored, or those stored before the failure are deleted as far as that works. */
  method UploadIssueImages(bucket: Bucket, images: seq<Image>) returns (ok: bool)
    modifies bucket
    ensures ok <==> old(bucket.budget) >= |images|
    ensures ok ==> bucket.objects == Stored(old(bucket.objects), images)
    ensures !ok ==> bucket.objects == CleanedUp(old(bucket.objects), images[..old(bucket.budget)], bucket.stuck)
  {
    var n := 0;
    ghost var before := bucket.objects;
    while n < |images|
      invariant 0 <= n <= |images| && bucket.budget == old(bucket.budget) - n
      invariant bucket.objects == Stored(before, images[..n])
    {
      ok := bucket.Put(images[n].key, images[n].bytes);
      if !ok {
        RemoveAll(bucket, images[..n]);
        return;
      }
      assert images[..n + 1][..n] == images[..n];
      n := n + 1;
    }
    assert images[..n] == images;
    return true;
  }

  /** Promise.all over the deletions; what is in `stuck` stays. */
  method RemoveAll(bucket: Bucket, images: seq<Image>)
    modifies bucket`objects
    ensures bucket.objects == old(bucket.objects) - (Keys(images) - bucket.stuck)
  {
    var n := 0;
    while n < |images|
      invariant 0 <= n <= |images|
      invariant bucket.objects == old(bucket.objects) - (Keys(images[..n]) - bucket.stuck)
    {
      bucket.Delete(images[n].key);
      KeysSnoc(images, n);
      n := n + 1;
    }
    assert images[..n] == images;
  }

  lemma KeysSnoc(images: seq<Image>, n: nat)
    requires n < |images|
    ensures Keys(images[..n + 1]) == Keys(images[..n]) + {images[n].key}
  {
    var a, b := images[..n], images[..n + 1];
    forall k | k in Keys(b)
      ensures k in Keys(a) + {images[n].key}
    {
      var i :| 0 <= i < |b| && b[i].key == k;
      if i < n { assert a[i].key == k; }
    }
    forall k | k in Keys(a) + {images[n].key}
      ensures k in Keys(b)
    {
      if k in Keys(a) {
        var i :| 0 <= i < |a| && a[i].key == k;
        assert b[i].key == k;
      } else {
        assert b[n].key == k;
      }
    }
  }

  // ------------------------------------------------------------- what a failed upload leaves

  /** The image last stored under a key. */
  ghost predicate IsLastUnder(images: seq<Image>, k: string, i: nat)
  {
    i < |images| && images[i].key == k && forall j :: i < j < |images| ==> images[j].key != k
  }

  lemma {:induction false} StoredFacts(before: Objects, images: seq<Image>, k: string)
    ensures k in Stored(before, images) <==> k in before || k in Keys(images)
    ensures k !in Keys(images) && k in before ==> Stored(before, images)[k] == before[k]
    ensures forall i: nat :: IsLastUnder(images, k, i) ==>
      k in Stored(before, images) && Stored(before, images)[k] == images[i].bytes
    decreases |images|
  {
    if images != [] {
      var n := |images| - 1;
      StoredFacts(before, images[..n], k);
      assert images[..n + 1] == images;
      KeysSnoc(images, n);
      forall i: nat | IsLastUnder(images, k, i)
        ensures k in Stored(before, images) && Stored(before, images)[k] == images[i].bytes
      {
        if i < n {
          assert images[n].key != k;
          assert IsLastUnder(images[..n], k, i);
        }
      }
    }
  }

  /**
   * After a failed upload under new keys the store is what it was, plus exactly the uploaded
   * objects whose deletion failed.
   */
  lemma LeftBehind(before: Objects, uploaded: seq<Image>, stuck: set<string>, k: string)
    requires Keys(uploaded) !! before.Keys
    ensures var after := CleanedUp(before, uploaded, stuck);
      && (k in after <==> k in before || (k in Keys(uploaded) && k in stuck))
      && (k in before ==> after[k] == before[k])
      && (forall i: nat :: IsLastUnder(uploaded, k, i) && k in stuck ==> k in after && after[k] == uploaded[i].bytes)
  {
    StoredFacts(before, uploaded, k);
  }

  /** The store is restored if and only if every deletion of an uploaded key succeeds. */
  lemma RestoredIff(before: Objects, uploaded: seq<Image>, stuck: set<string>)
    requires Keys(uploaded) !! before.Keys
    ensures CleanedUp(before, uploaded, stuck) == before <==> Keys(uploaded) !! stuck
  {
    hide CleanedUp, Keys;
    var after := CleanedUp(before, uploaded, stuck);
    forall k
      ensures k in after <==> k in before || (k in Keys(uploaded) && k in stuck)
      ensures k in before ==> after[k] == before[k]
    {
      LeftBehind(before, uploaded, stuck, k);
    }
    if Keys(uploaded) !! stuck {
      assert after.Keys == before.Keys;
    } else {
      var k :| k in Keys(uploaded) && k in stuck;
      assert k in after && k !in before;
    }
  }

  /** One image stored, the second refused, and the deletion of the first refused too: the object stays. */
  method StuckObjectStays() returns (objects: Objects)
    ensures objects == map["a" := [1]]
  {
    var first, second := Image("a", [1]), Image("b", [2]);
    var bucket := new Bucket(map[], 1, {"a"});
    var ok := UploadIssueImages(bucket, [first, second]);
    objects := bucket.objects;
    assert [first, second][..1] == [first];
    StuckObject(first);
  }

  lemma StuckObject(image: Image)
    ensures CleanedUp(map[], [image], {image.key}) == map[image.key := image.bytes]
  {
    var empty: Objects := map[];
    assert [image][..0] == [];
    assert Stored(empty, [image]) == Stored(empty, [])[image.key := image.bytes];
    assert Keys([image]) <= {image.key};
  }
}
