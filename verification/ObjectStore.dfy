/** `MinioService`: the chunk objects and their assembly, by server-side multipart copy
    or, where S3 finds a part too small, by concatenation in memory. */
module ObjectStore {
  import opened Chunks
  import opened Totals
  import opened Upload

  const MINIMUM_PART: nat := 5 * 1024 * 1024

  datatype StorageError = NoSuchKey | EntityTooSmall | MalformedUpload

  datatype Stored<T> = Done(value: T) | Refused(error: StorageError)

  /** The objects behind a list of keys. */
  function Contents(objects: Objects, keys: seq<ObjectKey>): (r: seq<Bytes>)
    requires forall i :: 0 <= i < |keys| ==> keys[i] in objects
    ensures |r| == |keys|
  {
    seq(|keys|, i requires 0 <= i < |keys| => objects[keys[i]])
  }

  ghost predicate Present(objects: Objects, keys: seq<ObjectKey>) {
    forall i :: 0 <= i < |keys| ==> keys[i] in objects
  }

  /** S3 joins the listed parts; they must be listed in ascending order, and all but the
      last must have the minimum size. */
  function CompleteMultipartUpload(uploaded: map<nat, Bytes>, listed: seq<nat>): Stored<Bytes> {
    if listed == [] || !(forall i :: 0 <= i < |listed| ==> listed[i] in uploaded) ||
       !(forall i :: 0 < i < |listed| ==> listed[i - 1] < listed[i]) then Refused(MalformedUpload)
    else if exists i :: 0 <= i < |listed| - 1 && |uploaded[listed[i]]| < MINIMUM_PART then Refused(EntityTooSmall)
    else Done(Joined(seq(|listed|, i requires 0 <= i < |listed| => uploaded[listed[i]])))
  }

  class MinioService {
    var objects: Objects

    constructor ()
      ensures objects == map[]
    {
      objects := map[];
    }

    method UploadChunk(key: ObjectKey, buffer: Bytes)
      modifies this
      ensures objects == old(objects)[key := buffer]
    {
      objects := objects[key := buffer];
    }

    /** With every source present and at least one, the destination becomes their
        concatenation in the order of the keys, whatever the sizes; otherwise nothing
        is written. */
    method AssembleChunks(chunkKeys: seq<ObjectKey>, destinationKey: ObjectKey) returns (ok: bool)
      modifies this
      ensures ok <==> chunkKeys != [] && Present(old(objects), chunkKeys)
      ensures ok ==> objects == old(objects)[destinationKey := Joined(Contents(old(objects), chunkKeys))]
      ensures !ok ==> objects == old(objects)
    {
      var copied, uploaded, completedParts := CopyParts(chunkKeys);
      if !copied {
        return false;
      }
      var completed := CompleteMultipartUpload(uploaded, completedParts);
      match completed
      case Done(whole) =>
        assert seq(|completedParts|, i requires 0 <= i < |completedParts| => uploaded[completedParts[i]])
            == Contents(objects, chunkKeys);
        objects := objects[destinationKey := whole];
        ok := true;
      case Refused(error) =>
        ok := false;
        if error == EntityTooSmall {
          ok := AssembleChunksInMemory(chunkKeys, destinationKey);
        }
    }

    /** One part per key, numbered from 1. */
    method CopyParts(chunkKeys: seq<ObjectKey>)
      returns (copied: bool, uploaded: map<nat, Bytes>, completedParts: seq<nat>)
      ensures copied <==> Present(objects, chunkKeys)
      ensures copied ==> |completedParts| == |chunkKeys|
      ensures copied ==> forall i :: 0 <= i < |chunkKeys| ==>
                completedParts[i] == i + 1 && completedParts[i] in uploaded && uploaded[completedParts[i]] == objects[chunkKeys[i]]
    {
      uploaded, completedParts := map[], [];
      var i := 0;
      while i < |chunkKeys|
        invariant 0 <= i <= |chunkKeys| && |completedParts| == i
        invariant forall j :: 0 <= j < i ==> chunkKeys[j] in objects
        invariant forall j :: 0 <= j < i ==> completedParts[j] == j + 1
        invariant forall j :: 0 <= j < i ==> completedParts[j] in uploaded && uploaded[completedParts[j]] == objects[chunkKeys[j]]
      {
        var partNumber := i + 1;
        if chunkKeys[i] !in objects {
          return false, uploaded, completedParts;
        }
        uploaded := uploaded[partNumber := objects[chunkKeys[i]]];
        completedParts := completedParts + [partNumber];
        i := i + 1;
      }
      copied := true;
    }

    method AssembleChunksInMemory(chunkKeys: seq<ObjectKey>, destinationKey: ObjectKey) returns (ok: bool)
      modifies this
      ensures ok <==> Present(old(objects), chunkKeys)
      ensures ok ==> objects == old(objects)[destinationKey := Joined(Contents(old(objects), chunkKeys))]
      ensures !ok ==> objects == old(objects)
    {
      var finalBuffer: Bytes := [];
      var i := 0;
      while i < |chunkKeys|
        invariant 0 <= i <= |chunkKeys|
        invariant Present(objects, chunkKeys[..i])
        invariant finalBuffer == Joined(Contents(objects, chunkKeys[..i]))
      {
        if chunkKeys[i] !in objects {
          return false;
        }
        var buffer := objects[chunkKeys[i]];
        assert chunkKeys[..i + 1] == chunkKeys[..i] + [chunkKeys[i]];
        var upTo := Contents(objects, chunkKeys[..i + 1]);
        assert upTo[..i] == Contents(objects, chunkKeys[..i]);
        finalBuffer := finalBuffer + buffer;
        i := i + 1;
      }
      assert chunkKeys[..i] == chunkKeys;
      UploadChunk(destinationKey, finalBuffer);
      ok := true;
    }

    /** Deletion drops the keys it reaches; a failing one leaves `kept` behind. */
    method DeleteObjects(keys: set<ObjectKey>, kept: set<ObjectKey>)
      modifies this
      ensures objects == old(objects) - (keys - kept)
    {
      objects := objects - (keys - kept);
    }
  }
}
