/** What comes out of an upload is what went in, however the requests interleave. */
module UploadRoundTrip {
  import opened Chunks
  import opened FileStatuses
  import opened Options
  import opened Totals
  import opened Upload

  /** While the session accepts chunks, a verified row's object is the part it stands for. */
  predicate HoldsPart(objects: Objects, fileId: string, parts: seq<Bytes>, index: nat, row: ChunkRow)
    requires index < |parts|
  {
    row.verified ==> ChunkObject(fileId, index) in objects && objects[ChunkObject(fileId, index)] == parts[index]
  }

  ghost predicate PartsHeld(objects: Objects, fileId: string, parts: seq<Bytes>, row: FileRow) {
    && row.totalChunks == |row.chunks| == |parts|
    && (Open(row.status) ==> forall i :: 0 <= i < |parts| ==> HoldsPart(objects, fileId, parts, i, row.chunks[i]))
  }

  /** Every version object of the file is the whole, and the row points at one of them
      once the upload has completed. */
  ghost predicate VersionsWhole(objects: Objects, fileId: string, whole: Bytes, row: FileRow) {
    && (forall k :: k in objects && k.VersionObject? && k.fileId == fileId ==> objects[k] == whole)
    && (row.status == Completed ==> row.storagePath.Some?)
    && (row.storagePath.Some? ==>
          var k := row.storagePath.value;
          k in objects && k.VersionObject? && k.fileId == fileId)
  }

  ghost predicate Holding(sv: Server, user: string, fileId: string, parts: seq<Bytes>) {
    && fileId in sv.files && sv.files[fileId].owner == user
    && PartsHeld(sv.objects, fileId, parts, sv.files[fileId])
    && VersionsWhole(sv.objects, fileId, Joined(parts), sv.files[fileId])
  }

  /** The file's identifier has not been used. */
  ghost predicate Unused(sv: Server, fileId: string) {
    && fileId !in sv.files
    && (forall k :: k in sv.objects ==> k.fileId != fileId)
  }

  /** What the owner sends for this file are its parts; anyone may do anything else,
      also to this file, in any order and any number of times. */
  predicate Honest(op: Op, user: string, fileId: string, parts: seq<Bytes>) {
    op.fileId == fileId ==>
      match op
      case Init(u, _, _, _, n) => u == user && n == |parts|
      case InitVersion(u, _, _, _, n) => u == user ==> n == |parts|
      case Chunk(u, _, i, _, buffer) => u == user && 0 <= i < |parts| ==> buffer == parts[i]
      case Complete(_, _, _) => true
  }

  lemma AcceptHoldsParts(sha: Bytes -> string, objects: Objects, fileId: string, parts: seq<Bytes>, row: FileRow, index: nat)
    requires PartsHeld(objects, fileId, parts, row) && Open(row.status) && index < |parts|
    ensures PartsHeld(objects[ChunkObject(fileId, index) := parts[index]], fileId, parts, AcceptRow(sha, row, index, parts[index]))
  {
    var after := objects[ChunkObject(fileId, index) := parts[index]];
    var accepted := AcceptRow(sha, row, index, parts[index]);
    forall i | 0 <= i < |parts|
      ensures HoldsPart(after, fileId, parts, i, accepted.chunks[i])
    {
      assert HoldsPart(objects, fileId, parts, i, row.chunks[i]);
    }
  }

  lemma AcceptHolds(sha: Bytes -> string, objects: Objects, fileId: string, parts: seq<Bytes>, row: FileRow, index: nat)
    requires PartsHeld(objects, fileId, parts, row) && VersionsWhole(objects, fileId, Joined(parts), row)
    requires Open(row.status) && index < |parts|
    ensures var after := objects[ChunkObject(fileId, index) := parts[index]];
            var accepted := AcceptRow(sha, row, index, parts[index]);
            PartsHeld(after, fileId, parts, accepted) && VersionsWhole(after, fileId, Joined(parts), accepted)
  {
    AcceptHoldsParts(sha, objects, fileId, parts, row, index);
  }

  /** When completion is let through, the stored chunks are the parts, in order. */
  lemma CompletionReadsParts(sv: Server, user: string, fileId: string, parts: seq<Bytes>)
    requires RefuseCompletion(sv.files, user, fileId).None?
    requires PartsHeld(sv.objects, fileId, parts, sv.files[fileId])
    ensures AllStored(sv.objects, fileId, |parts|)
    ensures StoredParts(sv.objects, fileId, |parts|) == parts
  {
    var row := sv.files[fileId];
    CountFull(row.chunks);
    forall i | 0 <= i < |parts|
      ensures ChunkObject(fileId, i) in sv.objects && sv.objects[ChunkObject(fileId, i)] == parts[i]
    {
      assert HoldsPart(sv.objects, fileId, parts, i, row.chunks[i]);
    }
  }

  lemma CompleteHolds(sha: Bytes -> string, sv: Server, user: string, asker: string, fileId: string, fate: Fate, parts: seq<Bytes>)
    requires Holding(sv, user, fileId, parts)
    ensures Holding(CompleteUpload(sv, asker, fileId, fate), user, fileId, parts)
  {
    if RefuseCompletion(sv.files, asker, fileId).None? {
      CompletionReadsParts(sv, user, fileId, parts);
    }
  }

  lemma OwnStepHolds(sha: Bytes -> string, sv: Server, op: Op, user: string, fileId: string, parts: seq<Bytes>)
    requires Honest(op, user, fileId, parts) && op.fileId == fileId && !op.Init?
    requires Holding(sv, user, fileId, parts)
    ensures Holding(Step(sha, sv, op), user, fileId, parts)
  {
    match op
    case Chunk(u, _, i, checksum, buffer) =>
      if RefuseChunk(sha, sv.files, u, fileId, i, checksum, buffer).None? {
        AcceptHolds(sha, sv.objects, fileId, parts, sv.files[fileId], i);
      }
    case InitVersion(_, _, _, _, _) =>
    case Complete(u, _, fate) => CompleteHolds(sha, sv, user, u, fileId, fate, parts);
  }

  lemma StepLeavesObjects(sha: Bytes -> string, sv: Server, op: Op, k: ObjectKey)
    requires op.fileId != k.fileId
    ensures var after := Step(sha, sv, op).objects;
            (k in after <==> k in sv.objects) && (k in sv.objects ==> after[k] == sv.objects[k])
  {
  }

  /** The objects of one file are the same in both. */
  ghost predicate SameObjects(a: Objects, b: Objects, fileId: string) {
    forall k :: (k in a || k in b) && k.fileId == fileId ==> k in a && k in b && a[k] == b[k]
  }

  lemma OtherStepObjects(sha: Bytes -> string, sv: Server, op: Op, fileId: string)
    requires op.fileId != fileId
    ensures SameObjects(sv.objects, Step(sha, sv, op).objects, fileId)
  {
    var after := Step(sha, sv, op);
    forall k | (k in sv.objects || k in after.objects) && k.fileId == fileId
      ensures k in sv.objects && k in after.objects && sv.objects[k] == after.objects[k]
    {
      StepLeavesObjects(sha, sv, op, k);
    }
  }

  lemma SamePartsHeld(a: Objects, b: Objects, fileId: string, parts: seq<Bytes>, row: FileRow)
    requires SameObjects(a, b, fileId) && PartsHeld(a, fileId, parts, row)
    ensures PartsHeld(b, fileId, parts, row)
  {
    forall i | Open(row.status) && 0 <= i < |parts|
      ensures HoldsPart(b, fileId, parts, i, row.chunks[i])
    {
      assert HoldsPart(a, fileId, parts, i, row.chunks[i]);
    }
  }

  lemma SameObjectsHold(a: Objects, b: Objects, fileId: string, parts: seq<Bytes>, row: FileRow)
    requires SameObjects(a, b, fileId)
    requires PartsHeld(a, fileId, parts, row) && VersionsWhole(a, fileId, Joined(parts), row)
    ensures PartsHeld(b, fileId, parts, row) && VersionsWhole(b, fileId, Joined(parts), row)
  {
    SamePartsHeld(a, b, fileId, parts, row);
  }

  lemma OtherStepHolds(sha: Bytes -> string, sv: Server, op: Op, user: string, fileId: string, parts: seq<Bytes>)
    requires op.fileId != fileId
    ensures Holding(sv, user, fileId, parts) ==> Holding(Step(sha, sv, op), user, fileId, parts)
    ensures Unused(sv, fileId) ==> Unused(Step(sha, sv, op), fileId)
  {
    var after := Step(sha, sv, op);
    OtherStepObjects(sha, sv, op, fileId);
    StepLeavesOthers(sha, sv, op, fileId);
    if Holding(sv, user, fileId, parts) {
      SameObjectsHold(sv.objects, after.objects, fileId, parts, sv.files[fileId]);
    }
  }

  lemma StepOnUnused(sha: Bytes -> string, sv: Server, op: Op, user: string, fileId: string, parts: seq<Bytes>)
    requires Honest(op, user, fileId, parts) && op.fileId == fileId && Unused(sv, fileId)
    ensures Unused(Step(sha, sv, op), fileId) || Holding(Step(sha, sv, op), user, fileId, parts)
  {
  }

  lemma {:induction false} RunHolds(sha: Bytes -> string, ops: seq<Op>, user: string, fileId: string, parts: seq<Bytes>)
    requires FreshIds(sha, ops)
    requires forall i :: 0 <= i < |ops| ==> Honest(ops[i], user, fileId, parts)
    ensures Unused(Run(sha, ops), fileId) || Holding(Run(sha, ops), user, fileId, parts)
  {
    if ops != [] {
      var front, op := ops[..|ops| - 1], ops[|ops| - 1];
      var sv := Run(sha, front);
      forall i | 0 <= i < |front| && front[i].Init?
        ensures front[i].fileId !in Run(sha, front[..i]).files
      {
        assert front[..i] == ops[..i];
      }
      RunHolds(sha, front, user, fileId, parts);
      assert op.Init? ==> op.fileId !in sv.files;
      if op.fileId != fileId {
        OtherStepHolds(sha, sv, op, user, fileId, parts);
      } else if Unused(sv, fileId) {
        StepOnUnused(sha, sv, op, user, fileId, parts);
      } else {
        OwnStepHolds(sha, sv, op, user, fileId, parts);
      }
    }
  }

  /** A file split by any chunk size, its chunks sent in any order, repeated, refused or
      interrupted, among any requests of anyone else: every object ever assembled for it
      is the file, and a completed upload has one. */
  lemma RoundTrip(sha: Bytes -> string, ops: seq<Op>, user: string, fileId: string, file: Bytes, chunkSize: nat)
    requires chunkSize > 0 && FreshIds(sha, ops)
    requires forall i :: 0 <= i < |ops| ==> Honest(ops[i], user, fileId, SplitFile(file, chunkSize))
    ensures var sv := Run(sha, ops);
            && (forall k :: k in sv.objects && k.VersionObject? && k.fileId == fileId ==> sv.objects[k] == file)
            && (fileId in sv.files && sv.files[fileId].status == Completed ==>
                  sv.files[fileId].storagePath.Some? && sv.files[fileId].storagePath.value in sv.objects &&
                  sv.objects[sv.files[fileId].storagePath.value] == file)
  {
    RunHolds(sha, ops, user, fileId, SplitFile(file, chunkSize));
    SplitJoined(file, chunkSize);
  }

  /** A completion that is let through and finishes stores exactly the joined parts. */
  lemma CompletionStoresWhole(sha: Bytes -> string, sv: Server, user: string, fileId: string, parts: seq<Bytes>)
    requires Holding(sv, user, fileId, parts) && parts != []
    requires RefuseCompletion(sv.files, user, fileId).None?
    ensures var after := CompleteUpload(sv, user, fileId, Finishes);
            && after.files[fileId].status == Completed
            && after.files[fileId].storagePath.Some? && after.files[fileId].storagePath.value in after.objects
            && after.objects[after.files[fileId].storagePath.value] == Joined(parts)
            && (forall i: nat :: i < |parts| ==> ChunkObject(fileId, i) !in after.objects)
  {
    CompletionReadsParts(sv, user, fileId, parts);
  }
}
