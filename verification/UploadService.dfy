/** `UploadService` over its file table and the object store. */
module UploadService {
  import opened Chunks
  import opened FileStatuses
  import opened ObjectStore
  import opened Options
  import opened Totals
  import opened Upload

  datatype Receipt = Receipt(uploadedChunks: nat, totalChunks: nat)

  datatype SessionView = SessionView(status: FileStatus, totalChunks: nat, uploadedChunks: nat, verifiedChunks: seq<nat>)

  datatype Reply<T> = Accepted(value: T) | Rejected(error: UploadError)

  /** The indices of the verified chunks, ascending. */
  function VerifiedIndices(chunks: seq<ChunkRow>): (r: seq<nat>)
    ensures forall i: nat :: i in r <==> i < |chunks| && chunks[i].verified
    ensures |r| == CountVerified(chunks)
    ensures forall i, j :: 0 <= i < j < |r| ==> r[i] < r[j]
  {
    if chunks == [] then [] else
      var n := |chunks| - 1;
      var front := VerifiedIndices(chunks[..n]);
      assert forall i :: 0 <= i < |front| ==> front[i] in front;
      front + if chunks[n].verified then [n] else []
  }

  function KeyList(fileId: string, n: nat): seq<ObjectKey> {
    seq(n, (i: nat) => ChunkObject(fileId, i))
  }

  lemma KeyListContents(objects: Objects, fileId: string, n: nat)
    ensures Present(objects, KeyList(fileId, n)) <==> AllStored(objects, fileId, n)
    ensures AllStored(objects, fileId, n) ==> Contents(objects, KeyList(fileId, n)) == StoredParts(objects, fileId, n)
  {
    var keys := KeyList(fileId, n);
    assert forall i :: 0 <= i < n ==> keys[i] == ChunkObject(fileId, i);
  }

  class UploadService {
    const sha: Bytes -> string
    const minio: MinioService
    var files: Files

    ghost function Model(): Server
      reads this, minio
    {
      Server(files, minio.objects)
    }

    constructor (sha: Bytes -> string, minio: MinioService)
      ensures this.sha == sha && this.minio == minio && Model() == Server(map[], minio.objects)
    {
      this.sha, this.minio, files := sha, minio, map[];
    }

    method InitUpload(user: string, fileId: string, name: string, totalSize: nat, totalChunks: nat)
      requires fileId !in files
      modifies this
      ensures Model() == Upload.InitUpload(old(Model()), user, fileId, name, totalSize, totalChunks)
    {
      files := files[fileId := NewRow(user, name, totalSize, totalChunks)];
    }

    method InitVersionUpload(user: string, fileId: string, name: string, totalSize: nat, totalChunks: nat)
      returns (refused: Option<UploadError>)
      modifies this
      ensures refused == RefuseOwner(old(files), user, fileId)
      ensures Model() == Upload.InitVersionUpload(old(Model()), user, fileId, name, totalSize, totalChunks)
    {
      if fileId !in files {
        return Some(NotFound);
      }
      var file := files[fileId];
      if file.owner != user {
        return Some(Forbidden);
      }
      files := files[fileId := file.(name := name, totalSize := totalSize, totalChunks := totalChunks,
                                     uploadedChunks := 0, status := Pending, chunks := FreshChunks(totalChunks))];
      refused := None;
    }

    /** The receipt counts the verified chunks. */
    method UploadChunk(user: string, fileId: string, chunkIndex: int, checksum: string, fileBuffer: Bytes)
      returns (r: Reply<Receipt>)
      modifies this, minio
      ensures Model() == Upload.UploadChunk(sha, old(Model()), user, fileId, chunkIndex, checksum, fileBuffer)
      ensures var refusal := RefuseChunk(sha, old(files), user, fileId, chunkIndex, checksum, fileBuffer);
              match r
              case Accepted(receipt) =>
                && refusal.None? && fileId in files
                && receipt == Receipt(files[fileId].uploadedChunks, files[fileId].totalChunks)
              case Rejected(error) => refusal == Some(error)
    {
      if fileBuffer == [] {
        return Rejected(EmptyChunk);
      }
      if fileId !in files {
        return Rejected(NotFound);
      }
      var file := files[fileId];
      if file.owner != user {
        return Rejected(Forbidden);
      }
      if file.status != Pending && file.status != Uploading {
        return Rejected(WrongStatus(file.status));
      }
      if !(0 <= chunkIndex < |file.chunks|) {
        return Rejected(InvalidIndex);
      }
      var calculatedChecksum := sha(fileBuffer);
      if !SameDigest(calculatedChecksum, checksum) {
        return Rejected(ChecksumMismatch);
      }
      var receipt := StoreChunk(fileId, chunkIndex, calculatedChecksum, fileBuffer);
      r := Accepted(receipt);
    }

    /** The object first, then both rows. */
    method StoreChunk(fileId: string, chunkIndex: nat, calculatedChecksum: string, fileBuffer: Bytes)
      returns (receipt: Receipt)
      requires fileId in files && chunkIndex < |files[fileId].chunks| && calculatedChecksum == sha(fileBuffer)
      modifies this, minio
      ensures files == old(files)[fileId := AcceptRow(sha, old(files)[fileId], chunkIndex, fileBuffer)]
      ensures minio.objects == old(minio.objects)[ChunkObject(fileId, chunkIndex) := fileBuffer]
      ensures receipt == Receipt(files[fileId].uploadedChunks, files[fileId].totalChunks)
    {
      var file := files[fileId];
      var isNewVerification := !file.chunks[chunkIndex].verified;
      minio.UploadChunk(ChunkObject(fileId, chunkIndex), fileBuffer);
      var verified := ChunkRow(|fileBuffer|, calculatedChecksum, true);
      file := file.(status := Uploading, chunks := file.chunks[chunkIndex := verified]);
      if isNewVerification {
        file := file.(uploadedChunks := file.uploadedChunks + 1);
      }
      files := files[fileId := file];
      receipt := Receipt(file.uploadedChunks, file.totalChunks);
    }

    method GetUploadStatus(user: string, fileId: string) returns (r: Reply<SessionView>)
      ensures match r
              case Accepted(view) =>
                && fileId in files && files[fileId].owner == user
                && view.status == files[fileId].status && view.totalChunks == files[fileId].totalChunks
                && view.uploadedChunks == files[fileId].uploadedChunks
                && view.verifiedChunks == VerifiedIndices(files[fileId].chunks)
              case Rejected(error) => if fileId !in files then error == NotFound else files[fileId].owner != user && error == Forbidden
    {
      if fileId !in files {
        return Rejected(NotFound);
      }
      var file := files[fileId];
      if file.owner != user {
        return Rejected(Forbidden);
      }
      r := Accepted(SessionView(file.status, file.totalChunks, file.uploadedChunks, VerifiedIndices(file.chunks)));
    }

    /** A completion nobody races with, as far as `fate` lets it get. */
    method CompleteUpload(user: string, fileId: string, fate: Fate) returns (refused: Option<UploadError>)
      modifies this, minio
      ensures Model() == Upload.CompleteUpload(old(Model()), user, fileId, fate)
      ensures RefuseCompletion(old(files), user, fileId).Some? ==> refused == RefuseCompletion(old(files), user, fileId)
      ensures RefuseCompletion(old(files), user, fileId).None? ==>
                fileId in files &&
                if refused.None? then files[fileId].status == Completed
                else files[fileId].status == Failed && refused == Some(AssemblyError)
    {
      if fileId !in files {
        return Some(NotFound);
      }
      var file := files[fileId];
      if file.owner != user {
        return Some(Forbidden);
      }
      if file.status == Completed {
        return Some(AlreadyCompleted);
      }
      var verifiedChunks := VerifiedIndices(file.chunks);
      if |verifiedChunks| != file.totalChunks {
        return Some(Incomplete(|verifiedChunks|));
      }
      if file.status != Pending && file.status != Uploading {
        return Some(CompletionInProgress);
      }
      files := files[fileId := file.(status := Assembling)];
      var finished := Assemble(file, fileId, fate);
      if finished {
        file := file.(status := Completed, versions := file.versions + 1, storagePath := Some(Destination(file, fileId)));
        refused := None;
      } else {
        file := file.(status := Failed);
        refused := Some(AssemblyError);
      }
      files := files[fileId := file];
    }

    /** Joins the chunk objects and removes them. */
    method Assemble(file: FileRow, fileId: string, fate: Fate) returns (finished: bool)
      modifies minio
      ensures finished <==> Assembles(old(minio.objects), fileId, |file.chunks|, fate) && fate.Finishes?
      ensures minio.objects == AssembledObjects(old(minio.objects), file, fileId, fate)
    {
      if fate.AssemblyFails? {
        return false;
      }
      var n := |file.chunks|;
      var chunkKeys := KeyList(fileId, n);
      KeyListContents(minio.objects, fileId, n);
      var assembled := minio.AssembleChunks(chunkKeys, Destination(file, fileId));
      if !assembled {
        return false;
      }
      minio.DeleteObjects(ChunkKeys(fileId, n), if fate.DeletionFails? then fate.kept else {});
      finished := fate.Finishes?;
    }
  }
}
