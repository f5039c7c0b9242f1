/** The dashboard's resumable upload: it cuts the file, skips the chunks the server has
    verified, tries each other one up to three times, and asks for completion. */
module UploadClient {
  import opened Chunks
  import opened FileStatuses
  import opened Options
  import opened Text
  import opened Totals
  import opened Upload
  import opened UploadRoundTrip
  import opened UploadService

  const MAX_CHUNKS: nat := 10000
  const MAX_ATTEMPTS: nat := 3

  datatype ActiveUpload = ActiveUpload(fileId: string, name: string, totalSize: nat, totalChunks: nat, chunkSize: nat)

  /** What the network does with one request; an abort ends the upload. */
  datatype Delivery = Delivered | RequestLost | ResponseLost | Aborted(processed: bool)

  predicate Processed(d: Delivery) {
    d.Delivered? || d.ResponseLost? || (d.Aborted? && d.processed)
  }

  datatype Conditions = Conditions(status: Delivery, init: Delivery, chunk: (nat, nat) -> Delivery,
                                   uploading: nat -> bool, complete: Delivery, fate: Fate)

  /** One of the three tries of chunk `i` goes through, and no abort comes first. */
  ghost predicate GetsThrough(net: (nat, nat) -> Delivery, i: nat) {
    exists a: nat :: 1 <= a <= 3 && net(i, a).Delivered? && forall b: nat :: 1 <= b < a ==> !net(i, b).Aborted?
  }

  ghost predicate Favourable(c: Conditions, n: nat) {
    && c.status.Delivered? && c.init.Delivered? && c.complete.Delivered? && c.fate.Finishes?
    && forall i: nat :: i < n ==> c.uploading(i) && GetsThrough(c.chunk, i)
  }

  /** A digest function prints lower-case hexadecimal. */
  ghost predicate PrintsHex(sha: Bytes -> string) {
    forall b :: sha(b) != [] && forall i :: 0 <= i < |sha(b)| ==> HexDigit(sha(b)[i])
  }

  lemma OwnDigestMatches(sha: Bytes -> string, buffer: Bytes)
    requires PrintsHex(sha)
    ensures SameDigest(sha(buffer), sha(buffer))
  {
    var digest := sha(buffer);
    assert HexDigit(digest[0]) && HexDigit(digest[|digest| - 1]);
  }

  /** The chunks not yet verified are the ones this client would cut. */
  ghost predicate Agrees(row: FileRow, parts: seq<Bytes>, file: Bytes, chunkSize: nat)
    requires chunkSize > 0
  {
    forall i :: 0 <= i < |parts| && i < |row.chunks| && i < ChunkCount(|file|, chunkSize) && !row.chunks[i].verified ==>
      parts[i] == Slice(file, chunkSize, i)
  }

  /** `parts` describe the session. */
  ghost predicate InSession(sv: Server, user: string, fileId: string, parts: seq<Bytes>, file: Bytes, chunkSize: nat)
    requires chunkSize > 0
  {
    Holding(sv, user, fileId, parts) && Agrees(sv.files[fileId], parts, file, chunkSize)
  }

  predicate Matches(active: Option<ActiveUpload>, name: string, file: Bytes) {
    active.Some? && active.value.name == name && active.value.totalSize == |file|
  }

  /** If the remembered upload is taken for this file's, `parts` describe its session. */
  ghost predicate Resumable(sv: Server, user: string, active: Option<ActiveUpload>, parts: seq<Bytes>,
                            name: string, file: Bytes, chunkSize: nat)
    requires chunkSize > 0
  {
    Matches(active, name, file) && RefuseOwner(sv.files, user, active.value.fileId).None? ==>
      InSession(sv, user, active.value.fileId, parts, file, chunkSize)
  }

  /** A session taken up again still accepts chunks and counts them as this client does. */
  ghost predicate CanGoOn(sv: Server, user: string, active: Option<ActiveUpload>, parts: seq<Bytes>,
                          name: string, file: Bytes, chunkSize: nat)
    requires chunkSize > 0
  {
    Matches(active, name, file) && RefuseOwner(sv.files, user, active.value.fileId).None? ==>
      Open(sv.files[active.value.fileId].status) && |parts| == ChunkCount(|file|, chunkSize)
  }

  /** From `a` to `b` the session only gained verified chunks. */
  ghost predicate Gained(a: Server, b: Server, fileId: string) {
    && fileId in a.files && fileId in b.files
    && |b.files[fileId].chunks| == |a.files[fileId].chunks|
    && (Open(a.files[fileId].status) ==> Open(b.files[fileId].status))
    && forall i :: 0 <= i < |a.files[fileId].chunks| && a.files[fileId].chunks[i].verified ==> b.files[fileId].chunks[i].verified
  }

  lemma SendKeepsSession(sha: Bytes -> string, sv: Server, user: string, fileId: string, i: nat, parts: seq<Bytes>,
                         file: Bytes, chunkSize: nat)
    requires chunkSize > 0 && i < ChunkCount(|file|, chunkSize) && PrintsHex(sha)
    requires InSession(sv, user, fileId, parts, file, chunkSize)
    requires i < |parts| ==> parts[i] == Slice(file, chunkSize, i)
    ensures var buffer := Slice(file, chunkSize, i);
            var after := UploadChunk(sha, sv, user, fileId, i, sha(buffer), buffer);
            && InSession(after, user, fileId, parts, file, chunkSize) && Gained(sv, after, fileId)
            && (RefuseChunk(sha, sv.files, user, fileId, i, sha(buffer), buffer).None? ==>
                  i < |parts| && after.files[fileId].chunks[i].verified)
            && (Open(sv.files[fileId].status) && i < |parts| ==>
                  RefuseChunk(sha, sv.files, user, fileId, i, sha(buffer), buffer).None?)
  {
    var buffer := Slice(file, chunkSize, i);
    SliceShape(file, chunkSize, i);
    OwnStepHolds(sha, sv, Chunk(user, fileId, i, sha(buffer), buffer), user, fileId, parts);
    if RefuseChunk(sha, sv.files, user, fileId, i, sha(buffer), buffer).None? {
      ChunkGuards(sha, sv, user, fileId, i, sha(buffer), buffer);
      AcceptGains(sha, sv, fileId, i, buffer);
    }
    if Open(sv.files[fileId].status) && i < |parts| {
      OwnDigestMatches(sha, buffer);
      ChunkAcceptedIff(sha, sv.files, user, fileId, i, sha(buffer), buffer);
    }
  }

  lemma AcceptGains(sha: Bytes -> string, sv: Server, fileId: string, i: nat, buffer: Bytes)
    requires fileId in sv.files && i < |sv.files[fileId].chunks|
    ensures var after := Server(sv.files[fileId := AcceptRow(sha, sv.files[fileId], i, buffer)],
                                sv.objects[ChunkObject(fileId, i) := buffer]);
            Gained(sv, after, fileId) && after.files[fileId].chunks[i].verified
  {
  }

  /** The parts of chunks not listed are the ones this client would cut. */
  ghost predicate CutsRest(parts: seq<Bytes>, listed: seq<nat>, file: Bytes, chunkSize: nat)
    requires chunkSize > 0
  {
    forall j: nat :: j < |parts| && j < ChunkCount(|file|, chunkSize) && j !in listed ==> parts[j] == Slice(file, chunkSize, j)
  }

  ghost predicate ListedVerified(row: FileRow, listed: seq<nat>) {
    forall j :: j in listed ==> j < |row.chunks| && row.chunks[j].verified
  }

  datatype Session = Session(fileId: string, verifiedChunks: seq<nat>)

  predicate Admissible(file: Bytes, totalChunks: nat) {
    |file| >= 1 && 1 <= totalChunks <= MAX_CHUNKS
  }

  /** Every chunk verified under the client's count: the completion will be let through. */
  lemma AllVerifiedCompletes(sv: Server, user: string, fileId: string, parts: seq<Bytes>)
    requires Holding(sv, user, fileId, parts) && Open(sv.files[fileId].status)
    requires forall j :: 0 <= j < |parts| ==> sv.files[fileId].chunks[j].verified
    ensures RefuseCompletion(sv.files, user, fileId).None?
  {
    CountFull(sv.files[fileId].chunks);
  }

  /** A session opened for this very file. */
  lemma FreshSession(sv: Server, user: string, fileId: string, name: string, file: Bytes, chunkSize: nat, totalChunks: nat)
    requires chunkSize > 0 && Unused(sv, fileId) && totalChunks == ChunkCount(|file|, chunkSize)
    ensures var after := InitUpload(sv, user, fileId, name, |file|, totalChunks);
            InSession(after, user, fileId, SplitFile(file, chunkSize), file, chunkSize)
  {
  }

  /** Starting another session leaves the remembered one resumable. */
  lemma InitKeepsResumable(sha: Bytes -> string, sv: Server, user: string, newId: string, active: Option<ActiveUpload>,
                           parts: seq<Bytes>, name: string, file: Bytes, chunkSize: nat, totalChunks: nat)
    requires chunkSize > 0 && Fresh(sv, active, newId)
    requires Resumable(sv, user, active, parts, name, file, chunkSize)
    ensures Resumable(InitUpload(sv, user, newId, name, |file|, totalChunks), user, active, parts, name, file, chunkSize)
  {
    if Matches(active, name, file) {
      OtherStepHolds(sha, sv, Init(user, newId, name, |file|, totalChunks), user, active.value.fileId, parts);
    }
  }

  /** A new identifier is neither in use nor remembered. */
  ghost predicate Fresh(sv: Server, active: Option<ActiveUpload>, newId: string) {
    Unused(sv, newId) && (active.Some? ==> active.value.fileId != newId)
  }

  class UploadClient {
    var activeUpload: Option<ActiveUpload>

    constructor ()
      ensures activeUpload == None
    {
      activeUpload := None;
    }

    /** One request for a chunk; a lost response leaves the chunk verified on the server. */
    method TryChunk(server: UploadService, user: string, fileId: string, i: nat, file: Bytes, chunkSize: nat,
                    delivery: Delivery, ghost parts: seq<Bytes>)
      returns (ok: bool)
      requires chunkSize > 0 && i < ChunkCount(|file|, chunkSize) && PrintsHex(server.sha)
      requires InSession(server.Model(), user, fileId, parts, file, chunkSize)
      requires i < |parts| ==> parts[i] == Slice(file, chunkSize, i)
      modifies server, server.minio
      ensures InSession(server.Model(), user, fileId, parts, file, chunkSize)
      ensures Gained(old(server.Model()), server.Model(), fileId)
      ensures ok ==> i < |parts| && server.files[fileId].chunks[i].verified
      ensures Open(old(server.files)[fileId].status) && i < |parts| && delivery.Delivered? ==> ok
      ensures !delivery.Delivered? ==> !ok
    {
      if !Processed(delivery) {
        return false;
      }
      var chunkBlob := Slice(file, chunkSize, i);
      SendKeepsSession(server.sha, server.Model(), user, fileId, i, parts, file, chunkSize);
      var reply := server.UploadChunk(user, fileId, i, server.sha(chunkBlob), chunkBlob);
      ok := delivery.Delivered? && reply.Accepted?;
    }

    /** One chunk, up to three times. */
    method SendChunk(server: UploadService, user: string, fileId: string, i: nat, file: Bytes, chunkSize: nat,
                     net: (nat, nat) -> Delivery, ghost parts: seq<Bytes>)
      returns (chunkUploaded: bool)
      requires chunkSize > 0 && i < ChunkCount(|file|, chunkSize) && PrintsHex(server.sha)
      requires InSession(server.Model(), user, fileId, parts, file, chunkSize)
      requires i < |parts| ==> parts[i] == Slice(file, chunkSize, i)
      modifies server, server.minio
      ensures InSession(server.Model(), user, fileId, parts, file, chunkSize)
      ensures Gained(old(server.Model()), server.Model(), fileId)
      ensures chunkUploaded ==> i < |parts| && server.files[fileId].chunks[i].verified
      ensures Open(old(server.files)[fileId].status) && i < |parts| && GetsThrough(net, i) ==> chunkUploaded
      ensures chunkUploaded ==> exists a: nat :: 1 <= a <= 3 && net(i, a).Delivered?
    {
      chunkUploaded := false;
      var attempts: nat := 0;
      while !chunkUploaded && attempts < MAX_ATTEMPTS
        invariant attempts <= MAX_ATTEMPTS
        invariant InSession(server.Model(), user, fileId, parts, file, chunkSize)
        invariant Gained(old(server.Model()), server.Model(), fileId)
        invariant chunkUploaded ==> i < |parts| && server.files[fileId].chunks[i].verified
        invariant chunkUploaded ==> 1 <= attempts && net(i, attempts).Delivered?
        invariant !chunkUploaded ==> forall a: nat :: 1 <= a <= attempts ==> !net(i, a).Aborted?
        invariant Open(old(server.files)[fileId].status) && i < |parts| && !chunkUploaded ==>
                    forall a: nat :: 1 <= a <= attempts ==> !net(i, a).Delivered?
      {
        attempts := attempts + 1;
        chunkUploaded := TryChunk(server, user, fileId, i, file, chunkSize, net(i, attempts), parts);
        if net(i, attempts).Aborted? {
          return false;
        }
      }
    }

    /** The remembered upload's verified chunks, if the server tells. */
    method AskVerified(server: UploadService, user: string, name: string, file: Bytes, c: Conditions)
      returns (verifiedChunks: seq<nat>)
      ensures verifiedChunks != [] ==>
                && activeUpload.Some? && activeUpload.value.name == name && activeUpload.value.totalSize == |file|
                && RefuseOwner(server.files, user, activeUpload.value.fileId).None?
                && verifiedChunks == VerifiedIndices(server.files[activeUpload.value.fileId].chunks)
    {
      verifiedChunks := [];
      if Matches(activeUpload, name, file) && c.status.Delivered? {
        var statusRes := server.GetUploadStatus(user, activeUpload.value.fileId);
        if statusRes.Accepted? {
          verifiedChunks := statusRes.value.verifiedChunks;
        }
      }
    }

    /** A new session for the file, unless the server does not take it or the answer is lost. */
    method StartSession(server: UploadService, user: string, name: string, file: Bytes, chunkSize: nat, newId: string,
                        c: Conditions, ghost held: seq<Bytes>)
      returns (session: Option<Session>, ghost parts: seq<Bytes>)
      requires chunkSize > 0 && Fresh(server.Model(), activeUpload, newId)
      requires Resumable(server.Model(), user, activeUpload, held, name, file, chunkSize)
      modifies this, server
      ensures session.None? ==> parts == held && Resumable(server.Model(), user, activeUpload, held, name, file, chunkSize)
      ensures session.Some? ==>
                && session.value == Session(newId, []) && parts == SplitFile(file, chunkSize)
                && InSession(server.Model(), user, newId, parts, file, chunkSize) && Open(server.files[newId].status)
                && activeUpload == Some(ActiveUpload(newId, name, |file|, ChunkCount(|file|, chunkSize), chunkSize))
                && |file| >= 1 && ChunkCount(|file|, chunkSize) <= 10000
      ensures c.init.Delivered? && |file| >= 1 && ChunkCount(|file|, chunkSize) <= 10000 ==> session.Some?
    {
      var totalChunks := ChunkCount(|file|, chunkSize);
      parts := held;
      CountByOffset(|file|, chunkSize, 0);
      if !Processed(c.init) || !Admissible(file, totalChunks) {
        return None, parts;
      }
      FreshSession(server.Model(), user, newId, name, file, chunkSize, totalChunks);
      InitKeepsResumable(server.sha, server.Model(), user, newId, activeUpload, parts, name, file, chunkSize, totalChunks);
      server.InitUpload(user, newId, name, |file|, totalChunks);
      if !c.init.Delivered? {
        return None, parts;
      }
      parts := SplitFile(file, chunkSize);
      activeUpload := Some(ActiveUpload(newId, name, |file|, totalChunks, chunkSize));
      session := Some(Session(newId, []));
    }

    /** Asks for the remembered session's verified chunks, and starts a new session when
        there is none or nothing is verified. */
    method OpenSession(server: UploadService, user: string, name: string, file: Bytes, chunkSize: nat, newId: string,
                       c: Conditions, ghost held: seq<Bytes>)
      returns (session: Option<Session>, ghost parts: seq<Bytes>)
      requires chunkSize > 0 && Fresh(server.Model(), activeUpload, newId)
      requires Resumable(server.Model(), user, activeUpload, held, name, file, chunkSize)
      modifies this, server
      ensures Resumable(server.Model(), user, activeUpload, parts, name, file, chunkSize)
      ensures parts == held || parts == SplitFile(file, chunkSize)
      ensures session.Some? ==>
                var s := session.value;
                && InSession(server.Model(), user, s.fileId, parts, file, chunkSize)
                && CutsRest(parts, s.verifiedChunks, file, chunkSize)
                && ListedVerified(server.files[s.fileId], s.verifiedChunks)
                && activeUpload.Some? && activeUpload.value.fileId == s.fileId
                && activeUpload.value.name == name && activeUpload.value.totalSize == |file|
                && (old(CanGoOn(server.Model(), user, activeUpload, held, name, file, chunkSize)) ==>
                      Open(server.files[s.fileId].status) && |parts| == ChunkCount(|file|, chunkSize))
      ensures c.status.Delivered? && c.init.Delivered? && |file| >= 1 && ChunkCount(|file|, chunkSize) <= 10000 ==> session.Some?
      ensures session.Some? && session.value.verifiedChunks == [] ==> |file| >= 1 && ChunkCount(|file|, chunkSize) <= 10000
    {
      parts := held;
      var verifiedChunks := AskVerified(server, user, name, file, c);
      if verifiedChunks != [] {
        return Some(Session(activeUpload.value.fileId, verifiedChunks)), parts;
      }
      session, parts := StartSession(server, user, name, file, chunkSize, newId, c, held);
    }

    /** Sends what is not verified yet. Stopping between two chunks only ends the loop. */
    method SendMissing(server: UploadService, user: string, s: Session, file: Bytes, chunkSize: nat, c: Conditions,
                       ghost parts: seq<Bytes>)
      returns (finished: bool)
      requires chunkSize > 0 && PrintsHex(server.sha)
      requires InSession(server.Model(), user, s.fileId, parts, file, chunkSize)
      requires CutsRest(parts, s.verifiedChunks, file, chunkSize)
      requires ListedVerified(server.files[s.fileId], s.verifiedChunks)
      modifies server, server.minio
      ensures InSession(server.Model(), user, s.fileId, parts, file, chunkSize)
      ensures Gained(old(server.Model()), server.Model(), s.fileId)
      ensures var n := ChunkCount(|file|, chunkSize);
              Open(old(server.files)[s.fileId].status) && n == |parts| && Favourable(c, n) ==>
                finished && forall j :: 0 <= j < n ==> server.files[s.fileId].chunks[j].verified
    {
      var fileId, totalChunks := s.fileId, ChunkCount(|file|, chunkSize);
      ghost var wellMet := Open(server.files[fileId].status) && totalChunks == |parts| && Favourable(c, totalChunks);
      var i: nat := 0;
      while i < totalChunks
        invariant i <= totalChunks
        invariant InSession(server.Model(), user, fileId, parts, file, chunkSize)
        invariant Gained(old(server.Model()), server.Model(), fileId)
        invariant wellMet ==> forall j :: 0 <= j < i ==> server.files[fileId].chunks[j].verified
      {
        if i !in s.verifiedChunks {
          if !c.uploading(i) {
            break;
          }
          ghost var before := server.Model();
          var chunkUploaded := SendChunk(server, user, fileId, i, file, chunkSize, c.chunk, parts);
          if !chunkUploaded {
            return false;
          }
          assert Gained(before, server.Model(), fileId);
        }
        i := i + 1;
      }
      finished := true;
    }

    /** A stopped upload can be started again; a finished one has stored the joined parts
        of its session: this file, or what a session cut with another size makes of it. */
    method StartChunkedUpload(server: UploadService, user: string, name: string, file: Bytes, chunkSize: nat, newId: string,
                              c: Conditions, ghost held: seq<Bytes>)
      returns (uploaded: Option<string>, ghost parts: seq<Bytes>)
      requires chunkSize > 0 && PrintsHex(server.sha) && Fresh(server.Model(), activeUpload, newId)
      requires Resumable(server.Model(), user, activeUpload, held, name, file, chunkSize)
      modifies this, server, server.minio
      ensures Resumable(server.Model(), user, activeUpload, parts, name, file, chunkSize)
      ensures parts == held || parts == SplitFile(file, chunkSize)
      ensures uploaded.Some? ==> activeUpload == None && Stores(server.Model(), uploaded.value, Joined(parts))
      ensures uploaded.Some? && held == SplitFile(file, chunkSize) ==> Stores(server.Model(), uploaded.value, file)
      ensures old(CanGoOn(server.Model(), user, activeUpload, held, name, file, chunkSize)) &&
              Favourable(c, ChunkCount(|file|, chunkSize)) && |file| >= 1 && ChunkCount(|file|, chunkSize) <= 10000 ==>
                uploaded.Some?
    {
      var session;
      session, parts := OpenSession(server, user, name, file, chunkSize, newId, c, held);
      if session.None? {
        return None, parts;
      }
      var fileId := session.value.fileId;
      ghost var opens := server.Model();
      var finished := SendMissing(server, user, session.value, file, chunkSize, c, parts);
      if !finished || !Processed(c.complete) {
        return None, parts;
      }
      if Open(opens.files[fileId].status) && |parts| == ChunkCount(|file|, chunkSize) && Favourable(c, |parts|) {
        AllVerifiedCompletes(server.Model(), user, fileId, parts);
      }
      FinishSession(server.sha, server.Model(), user, fileId, parts, file, chunkSize, c.fate);
      var refused := server.CompleteUpload(user, fileId, c.fate);
      if !c.complete.Delivered? || refused.Some? {
        return None, parts;
      }
      activeUpload := None;
      uploaded := Some(fileId);
      SplitJoined(file, chunkSize);
    }
  }

  /** The file's current object is these bytes. */
  ghost predicate Stores(sv: Server, fileId: string, whole: Bytes) {
    && fileId in sv.files && sv.files[fileId].status == Completed
    && sv.files[fileId].storagePath.Some? && sv.files[fileId].storagePath.value in sv.objects
    && sv.objects[sv.files[fileId].storagePath.value] == whole
  }

  lemma FinishSession(sha: Bytes -> string, sv: Server, user: string, fileId: string, parts: seq<Bytes>,
                      file: Bytes, chunkSize: nat, fate: Fate)
    requires chunkSize > 0 && InSession(sv, user, fileId, parts, file, chunkSize)
    ensures var after := CompleteUpload(sv, user, fileId, fate);
            && InSession(after, user, fileId, parts, file, chunkSize)
            && (after.files[fileId].status == Completed ==> Stores(after, fileId, Joined(parts)))
            && (RefuseCompletion(sv.files, user, fileId).None? && fate.Finishes? && parts != [] ==>
                  after.files[fileId].status == Completed)
  {
    CompleteHolds(sha, sv, user, user, fileId, fate, parts);
    if RefuseCompletion(sv.files, user, fileId).None? && parts != [] {
      CompletionReadsParts(sv, user, fileId, parts);
    }
  }

  // ---- resuming with another chunk size ----

  function VerifiedSet(chunks: seq<ChunkRow>): set<nat> {
    set i: nat | i < |chunks| && chunks[i].verified
  }

  /** A first upload cut by `size` and taken up by a client cutting by `other` is a
      session of the mixed parts. */
  lemma OtherSizeSession(sv: Server, user: string, fileId: string, file: Bytes, size: nat, other: nat)
    requires size > 0 && other > 0
    requires Holding(sv, user, fileId, SplitFile(file, size))
    requires forall k :: k in sv.objects && k.VersionObject? ==> k.fileId != fileId
    ensures InSession(sv, user, fileId, Mixed(file, size, other, VerifiedSet(sv.files[fileId].chunks)), file, other)
  {
    var row := sv.files[fileId];
    var mixed := Mixed(file, size, other, VerifiedSet(row.chunks));
    forall i | Open(row.status) && 0 <= i < |mixed|
      ensures HoldsPart(sv.objects, fileId, mixed, i, row.chunks[i])
    {
      assert HoldsPart(sv.objects, fileId, SplitFile(file, size), i, row.chunks[i]);
    }
  }

  /** Four bytes cut by two, the first chunk verified, then resumed with three: the
      assembled object loses the third byte. */
  lemma OtherSizeLosesBytes(file: Bytes)
    requires file == [1, 2, 3, 4]
    ensures Joined(Mixed(file, 2, 3, {0})) == [1, 2, 4]
  {
    var mixed := Mixed(file, 2, 3, {0});
    assert ChunkCount(|file|, 2) == 2;
    assert mixed[0] == file[0..2] == [1, 2];
    assert Offset(3, 1) == 3 && mixed[1] == file[3..4] == [4];
    assert Joined(mixed[..0]) == [];
    assert mixed[..1][..0] == mixed[..0];
    assert Joined(mixed[..1]) == Joined(mixed[..0]) + mixed[0] == [1, 2];
    assert Joined(mixed) == Joined(mixed[..1]) + mixed[1];
  }
}
