/** Upload sessions on the server: file rows, chunk rows and stored objects, with every
    request one step. What a session holds is described by the sequence of parts its
    chunks stand for. */
module Upload {
  import opened Chunks
  import opened FileStatuses
  import opened Options
  import opened Text
  import opened Totals

  datatype ChunkRow = ChunkRow(size: nat, checksum: string, verified: bool)

  /** `chunks/<fileId>/chunk-<index>` and `files/<owner>/<fileId>/v<version>/<name>`. */
  datatype ObjectKey =
    | ChunkObject(fileId: string, index: nat)
    | VersionObject(owner: string, fileId: string, version: nat, name: string)

  type Objects = map<ObjectKey, Bytes>

  datatype FileRow = FileRow(owner: string, name: string, totalSize: nat, totalChunks: nat, uploadedChunks: nat,
                             status: FileStatus, chunks: seq<ChunkRow>, versions: nat, storagePath: Option<ObjectKey>)

  type Files = map<string, FileRow>

  datatype Server = Server(files: Files, objects: Objects)

  datatype UploadError =
    | EmptyChunk | NotFound | Forbidden | WrongStatus(status: FileStatus) | InvalidIndex | ChecksumMismatch
    | AlreadyCompleted | Incomplete(received: nat) | CompletionInProgress | AssemblyError

  predicate Open(status: FileStatus) {
    status == Pending || status == Uploading
  }

  function CountVerified(chunks: seq<ChunkRow>): nat {
    if chunks == [] then 0
    else CountVerified(chunks[..|chunks| - 1]) + if chunks[|chunks| - 1].verified then 1 else 0
  }

  const FRESH_CHUNK := ChunkRow(0, "", false)

  function FreshChunks(n: nat): seq<ChunkRow> {
    seq(n, _ => FRESH_CHUNK)
  }

  // ---- one chunk ----

  predicate SameDigest(calculated: string, received: string) {
    Lower(calculated) == Lower(Trim(received))
  }

  /** The refusals of `uploadChunk`, in their order. */
  function RefuseChunk(sha: Bytes -> string, files: Files, user: string, fileId: string, index: int,
                       checksum: string, buffer: Bytes): Option<UploadError>
  {
    if buffer == [] then Some(EmptyChunk)
    else if fileId !in files then Some(NotFound)
    else if files[fileId].owner != user then Some(Forbidden)
    else if !Open(files[fileId].status) then Some(WrongStatus(files[fileId].status))
    else if !(0 <= index < |files[fileId].chunks|) then Some(InvalidIndex)
    else if !SameDigest(sha(buffer), checksum) then Some(ChecksumMismatch)
    else None
  }

  /** A chunk is accepted exactly when it is not empty, comes from the owner of an open
      session, has an index of the session, and the checksum sent, trimmed and in either
      case, is its digest. */
  lemma ChunkAcceptedIff(sha: Bytes -> string, files: Files, user: string, fileId: string, index: int,
                         checksum: string, buffer: Bytes)
    ensures RefuseChunk(sha, files, user, fileId, index, checksum, buffer).None? <==>
              && buffer != [] && fileId in files && files[fileId].owner == user
              && (files[fileId].status == Pending || files[fileId].status == Uploading)
              && 0 <= index < |files[fileId].chunks|
              && Lower(sha(buffer)) == Lower(Trim(checksum))
  {
  }

  /** A refusal names a defect the request has. */
  lemma ChunkRefusalIsTrue(sha: Bytes -> string, files: Files, user: string, fileId: string, index: int,
                           checksum: string, buffer: Bytes)
    ensures match RefuseChunk(sha, files, user, fileId, index, checksum, buffer)
            case None => true
            case Some(EmptyChunk) => buffer == []
            case Some(NotFound) => fileId !in files
            case Some(Forbidden) => fileId in files && files[fileId].owner != user
            case Some(WrongStatus(status)) =>
              fileId in files && status == files[fileId].status && status != Pending && status != Uploading
            case Some(InvalidIndex) => fileId in files && (index < 0 || index >= |files[fileId].chunks|)
            case Some(ChecksumMismatch) => Lower(sha(buffer)) != Lower(Trim(checksum))
            case Some(_) => false
  {
  }

  function AcceptRow(sha: Bytes -> string, row: FileRow, index: nat, buffer: Bytes): FileRow
    requires index < |row.chunks|
  {
    row.(status := Uploading,
         uploadedChunks := row.uploadedChunks + if row.chunks[index].verified then 0 else 1,
         chunks := row.chunks[index := ChunkRow(|buffer|, sha(buffer), true)])
  }

  function UploadChunk(sha: Bytes -> string, sv: Server, user: string, fileId: string, index: int,
                       checksum: string, buffer: Bytes): Server
  {
    if RefuseChunk(sha, sv.files, user, fileId, index, checksum, buffer).Some? then sv
    else Server(sv.files[fileId := AcceptRow(sha, sv.files[fileId], index, buffer)],
                sv.objects[ChunkObject(fileId, index) := buffer])
  }

  // ---- sessions ----

  function NewRow(user: string, name: string, totalSize: nat, totalChunks: nat): FileRow {
    FileRow(user, name, totalSize, totalChunks, 0, Pending, FreshChunks(totalChunks), 0, None)
  }

  function InitUpload(sv: Server, user: string, fileId: string, name: string, totalSize: nat, totalChunks: nat): Server {
    sv.(files := sv.files[fileId := NewRow(user, name, totalSize, totalChunks)])
  }

  function RefuseOwner(files: Files, user: string, fileId: string): Option<UploadError> {
    if fileId !in files then Some(NotFound)
    else if files[fileId].owner != user then Some(Forbidden)
    else None
  }

  function InitVersionUpload(sv: Server, user: string, fileId: string, name: string, totalSize: nat, totalChunks: nat): Server {
    if RefuseOwner(sv.files, user, fileId).Some? then sv
    else sv.(files := sv.files[fileId := sv.files[fileId].(
                        name := name, totalSize := totalSize, totalChunks := totalChunks, uploadedChunks := 0,
                        status := Pending, chunks := FreshChunks(totalChunks))])
  }

  // ---- completion ----

  /** The refusals of `completeUpload`, in their order. */
  function RefuseCompletion(files: Files, user: string, fileId: string): Option<UploadError> {
    if RefuseOwner(files, user, fileId).Some? then RefuseOwner(files, user, fileId)
    else
      var row := files[fileId];
      if row.status == Completed then Some(AlreadyCompleted)
      else if CountVerified(row.chunks) != row.totalChunks then Some(Incomplete(CountVerified(row.chunks)))
      else if !Open(row.status) then Some(CompletionInProgress)
      else None
  }

  predicate AllStored(objects: Objects, fileId: string, n: nat) {
    forall i :: 0 <= i < n ==> ChunkObject(fileId, i) in objects
  }

  function StoredParts(objects: Objects, fileId: string, n: nat): seq<Bytes>
    requires AllStored(objects, fileId, n)
  {
    seq(n, i requires 0 <= i < n => objects[ChunkObject(fileId, i)])
  }

  function ChunkKeys(fileId: string, n: nat): set<ObjectKey> {
    set i | 0 <= i < n :: ChunkObject(fileId, i)
  }

  /** How far a claimed completion gets before storage or the database fails it. */
  datatype Fate =
    | Finishes
    | AssemblyFails
    | DeletionFails(kept: set<ObjectKey>)
    | RowsFail

  function Destination(row: FileRow, fileId: string): ObjectKey {
    VersionObject(row.owner, fileId, row.versions + 1, row.name)
  }

  predicate Assembles(objects: Objects, fileId: string, n: nat, fate: Fate) {
    !fate.AssemblyFails? && n > 0 && AllStored(objects, fileId, n)
  }

  /** The assembled version is stored and the chunk objects are removed. */
  function AssembledObjects(objects: Objects, row: FileRow, fileId: string, fate: Fate): Objects {
    var n := |row.chunks|;
    if !Assembles(objects, fileId, n, fate) then objects
    else
      objects[Destination(row, fileId) := Joined(StoredParts(objects, fileId, n))]
      - (ChunkKeys(fileId, n) - if fate.DeletionFails? then fate.kept else {})
  }

  function CompletedRow(objects: Objects, row: FileRow, fileId: string, fate: Fate): FileRow {
    if Assembles(objects, fileId, |row.chunks|, fate) && fate.Finishes? then
      row.(status := Completed, versions := row.versions + 1, storagePath := Some(Destination(row, fileId)))
    else row.(status := Failed)
  }

  function CompleteUpload(sv: Server, user: string, fileId: string, fate: Fate): Server {
    if RefuseCompletion(sv.files, user, fileId).Some? then sv
    else
      var row := sv.files[fileId];
      Server(sv.files[fileId := CompletedRow(sv.objects, row, fileId, fate)],
             AssembledObjects(sv.objects, row, fileId, fate))
  }

  // ---- runs ----

  datatype Op =
    | Init(user: string, fileId: string, name: string, totalSize: nat, totalChunks: nat)
    | InitVersion(user: string, fileId: string, name: string, totalSize: nat, totalChunks: nat)
    | Chunk(user: string, fileId: string, index: int, checksum: string, buffer: Bytes)
    | Complete(user: string, fileId: string, fate: Fate)

  function Step(sha: Bytes -> string, sv: Server, op: Op): Server {
    match op
    case Init(user, fileId, name, size, n) => InitUpload(sv, user, fileId, name, size, n)
    case InitVersion(user, fileId, name, size, n) => InitVersionUpload(sv, user, fileId, name, size, n)
    case Chunk(user, fileId, index, checksum, buffer) => UploadChunk(sha, sv, user, fileId, index, checksum, buffer)
    case Complete(user, fileId, fate) => CompleteUpload(sv, user, fileId, fate)
  }

  const EMPTY := Server(map[], map[])

  function Run(sha: Bytes -> string, ops: seq<Op>): Server {
    if ops == [] then EMPTY else Step(sha, Run(sha, ops[..|ops| - 1]), ops[|ops| - 1])
  }

  /** New sessions get identifiers not used before. */
  ghost predicate FreshIds(sha: Bytes -> string, ops: seq<Op>) {
    forall i :: 0 <= i < |ops| && ops[i].Init? ==> ops[i].fileId !in Run(sha, ops[..i]).files
  }

  // ---- the books of every session ----

  /** While chunks are accepted, a verified row vouches for the stored object. */
  predicate Vouched(sha: Bytes -> string, objects: Objects, fileId: string, index: nat, row: ChunkRow) {
    row.verified ==>
      var k := ChunkObject(fileId, index);
      k in objects && |objects[k]| == row.size > 0 && sha(objects[k]) == row.checksum
  }

  ghost predicate WellKept(sha: Bytes -> string, objects: Objects, fileId: string, row: FileRow) {
    && row.totalChunks == |row.chunks|
    && row.uploadedChunks == CountVerified(row.chunks)
    && (Open(row.status) ==> forall i :: 0 <= i < |row.chunks| ==> Vouched(sha, objects, fileId, i, row.chunks[i]))
    && (row.status == Pending ==> row.uploadedChunks == 0)
    && (row.status == Uploading ==> row.uploadedChunks > 0)
  }

  ghost predicate AllWellKept(sha: Bytes -> string, sv: Server) {
    forall f :: f in sv.files ==> WellKept(sha, sv.objects, f, sv.files[f])
  }

  lemma {:induction false} CountUpdate(chunks: seq<ChunkRow>, index: nat, row: ChunkRow)
    requires index < |chunks| && row.verified
    ensures CountVerified(chunks[index := row]) == CountVerified(chunks) + if chunks[index].verified then 0 else 1
  {
    var n := |chunks| - 1;
    if index < n {
      CountUpdate(chunks[..n], index, row);
      assert chunks[index := row][..n] == chunks[..n][index := row];
    } else {
      assert chunks[index := row][..n] == chunks[..n];
    }
  }

  lemma {:induction false} CountFresh(n: nat)
    ensures CountVerified(FreshChunks(n)) == 0
  {
    if n > 0 {
      CountFresh(n - 1);
      assert FreshChunks(n)[..n - 1] == FreshChunks(n - 1);
    }
  }

  /** All chunks counted means every one of them is verified. */
  lemma {:induction false} CountFull(chunks: seq<ChunkRow>)
    ensures CountVerified(chunks) <= |chunks|
    ensures CountVerified(chunks) == |chunks| <==> forall i :: 0 <= i < |chunks| ==> chunks[i].verified
  {
    if chunks != [] {
      var n := |chunks| - 1;
      CountFull(chunks[..n]);
      if CountVerified(chunks) == |chunks| {
        forall i | 0 <= i < |chunks|
          ensures chunks[i].verified
        {
          assert i < n ==> chunks[..n][i].verified;
        }
      }
    }
  }

  lemma {:induction false} CountPositive(chunks: seq<ChunkRow>, index: nat)
    requires index < |chunks| && chunks[index].verified
    ensures CountVerified(chunks) > 0
  {
    if index < |chunks| - 1 {
      CountPositive(chunks[..|chunks| - 1], index);
    }
  }

  lemma AcceptKeepsBooks(sha: Bytes -> string, objects: Objects, fileId: string, row: FileRow, index: nat, buffer: Bytes)
    requires WellKept(sha, objects, fileId, row) && Open(row.status)
    requires index < |row.chunks| && buffer != []
    ensures WellKept(sha, objects[ChunkObject(fileId, index) := buffer], fileId, AcceptRow(sha, row, index, buffer))
  {
    CountUpdate(row.chunks, index, ChunkRow(|buffer|, sha(buffer), true));
    if row.chunks[index].verified {
      CountPositive(row.chunks, index);
    }
    var after := AcceptRow(sha, row, index, buffer);
    forall i | 0 <= i < |after.chunks|
      ensures Vouched(sha, objects[ChunkObject(fileId, index) := buffer], fileId, i, after.chunks[i])
    {
      assert Vouched(sha, objects, fileId, i, row.chunks[i]);
    }
  }

  /** The objects of one session's chunks are the same in both. */
  ghost predicate SameChunks(a: Objects, b: Objects, fileId: string) {
    forall i: nat :: (ChunkObject(fileId, i) in a <==> ChunkObject(fileId, i) in b) &&
                     (ChunkObject(fileId, i) in a ==> a[ChunkObject(fileId, i)] == b[ChunkObject(fileId, i)])
  }

  lemma OthersKeepBooks(sha: Bytes -> string, a: Objects, b: Objects, fileId: string, row: FileRow)
    requires WellKept(sha, a, fileId, row) && SameChunks(a, b, fileId)
    ensures WellKept(sha, b, fileId, row)
  {
    forall i | Open(row.status) && 0 <= i < |row.chunks|
      ensures Vouched(sha, b, fileId, i, row.chunks[i])
    {
      assert Vouched(sha, a, fileId, i, row.chunks[i]);
    }
  }

  lemma StepLeavesOthers(sha: Bytes -> string, sv: Server, op: Op, other: string)
    requires other != op.fileId
    ensures var after := Step(sha, sv, op);
            && (other in after.files <==> other in sv.files)
            && (other in sv.files ==> after.files[other] == sv.files[other])
            && SameChunks(sv.objects, after.objects, other)
  {
  }

  ghost predicate OwnBooks(sha: Bytes -> string, sv: Server, fileId: string) {
    fileId in sv.files ==> WellKept(sha, sv.objects, fileId, sv.files[fileId])
  }

  /** What an accepted chunk has been checked for. */
  lemma ChunkGuards(sha: Bytes -> string, sv: Server, user: string, fileId: string, index: int, checksum: string, buffer: Bytes)
    requires RefuseChunk(sha, sv.files, user, fileId, index, checksum, buffer).None?
    ensures fileId in sv.files && sv.files[fileId].owner == user && Open(sv.files[fileId].status)
    ensures 0 <= index < |sv.files[fileId].chunks| && buffer != []
    ensures UploadChunk(sha, sv, user, fileId, index, checksum, buffer) ==
            Server(sv.files[fileId := AcceptRow(sha, sv.files[fileId], index, buffer)],
                   sv.objects[ChunkObject(fileId, index) := buffer])
  {
  }

  lemma ChunkKeepsBooks(sha: Bytes -> string, sv: Server, user: string, fileId: string, index: int,
                        checksum: string, buffer: Bytes)
    requires OwnBooks(sha, sv, fileId)
    ensures OwnBooks(sha, UploadChunk(sha, sv, user, fileId, index, checksum, buffer), fileId)
  {
    if RefuseChunk(sha, sv.files, user, fileId, index, checksum, buffer).None? {
      ChunkGuards(sha, sv, user, fileId, index, checksum, buffer);
      AcceptKeepsBooks(sha, sv.objects, fileId, sv.files[fileId], index, buffer);
    }
  }

  lemma InitKeepsBooks(sha: Bytes -> string, sv: Server, user: string, fileId: string, name: string, size: nat, n: nat)
    requires OwnBooks(sha, sv, fileId)
    ensures OwnBooks(sha, InitUpload(sv, user, fileId, name, size, n), fileId)
    ensures OwnBooks(sha, InitVersionUpload(sv, user, fileId, name, size, n), fileId)
  {
    CountFresh(n);
  }

  lemma CompleteKeepsBooks(sha: Bytes -> string, sv: Server, user: string, fileId: string, fate: Fate)
    requires OwnBooks(sha, sv, fileId)
    ensures OwnBooks(sha, CompleteUpload(sv, user, fileId, fate), fileId)
  {
  }

  lemma StepKeepsOwnBooks(sha: Bytes -> string, sv: Server, op: Op)
    requires AllWellKept(sha, sv)
    ensures OwnBooks(sha, Step(sha, sv, op), op.fileId)
  {
    match op
    case Chunk(user, fileId, index, checksum, buffer) => ChunkKeepsBooks(sha, sv, user, fileId, index, checksum, buffer);
    case Init(user, fileId, name, size, n) => InitKeepsBooks(sha, sv, user, fileId, name, size, n);
    case InitVersion(user, fileId, name, size, n) => InitKeepsBooks(sha, sv, user, fileId, name, size, n);
    case Complete(user, fileId, fate) => CompleteKeepsBooks(sha, sv, user, fileId, fate);
  }

  lemma StepKeepsBooks(sha: Bytes -> string, sv: Server, op: Op)
    requires AllWellKept(sha, sv)
    ensures AllWellKept(sha, Step(sha, sv, op))
  {
    var after := Step(sha, sv, op);
    StepKeepsOwnBooks(sha, sv, op);
    forall f | f in after.files && f != op.fileId
      ensures WellKept(sha, after.objects, f, after.files[f])
    {
      StepLeavesOthers(sha, sv, op, f);
      OthersKeepBooks(sha, sv.objects, after.objects, f, sv.files[f]);
    }
  }

  /** In every run each session's counter is the number of its verified chunks, an open
      session is pending until the first of them, and while it is open each verified row
      describes the object that is stored. */
  lemma {:induction false} BooksAreKept(sha: Bytes -> string, ops: seq<Op>)
    ensures AllWellKept(sha, Run(sha, ops))
  {
    if ops != [] {
      BooksAreKept(sha, ops[..|ops| - 1]);
      StepKeepsBooks(sha, Run(sha, ops[..|ops| - 1]), ops[|ops| - 1]);
    }
  }

  /** So completion is let through exactly when the owner asks, the session is open and
      the counter has reached the total. */
  lemma CompletionIff(sha: Bytes -> string, ops: seq<Op>, user: string, fileId: string)
    ensures var files := Run(sha, ops).files;
            RefuseCompletion(files, user, fileId).None? <==>
              && fileId in files && files[fileId].owner == user && Open(files[fileId].status)
              && files[fileId].uploadedChunks == files[fileId].totalChunks
  {
    BooksAreKept(sha, ops);
  }

  /** A refusal of completion names a defect, and the count it reports is short. */
  lemma CompletionRefusalIsTrue(files: Files, user: string, fileId: string)
    requires fileId in files ==> files[fileId].totalChunks == |files[fileId].chunks|
    ensures match RefuseCompletion(files, user, fileId)
            case None => true
            case Some(NotFound) => fileId !in files
            case Some(Forbidden) => fileId in files && files[fileId].owner != user
            case Some(AlreadyCompleted) => fileId in files && files[fileId].status == Completed
            case Some(Incomplete(received)) =>
              && fileId in files && received == CountVerified(files[fileId].chunks)
              && exists i :: 0 <= i < |files[fileId].chunks| && !files[fileId].chunks[i].verified
            case Some(CompletionInProgress) =>
              fileId in files && (files[fileId].status == Assembling || files[fileId].status == Failed)
            case Some(_) => false
  {
    if fileId in files {
      CountFull(files[fileId].chunks);
    }
  }

  // ---- what a session was opened for ----

  /** Whose file it is, and the name, size and number of chunks of its latest session. */
  datatype Opening = Opening(owner: string, name: string, totalSize: nat, totalChunks: nat)

  function LastOpening(ops: seq<Op>, fileId: string): Option<Opening> {
    if ops == [] then None
    else
      var before := LastOpening(ops[..|ops| - 1], fileId);
      match ops[|ops| - 1]
      case Init(user, f, name, size, n) => if f == fileId then Some(Opening(user, name, size, n)) else before
      case InitVersion(user, f, name, size, n) =>
        if f == fileId && before.Some? && before.value.owner == user then Some(Opening(user, name, size, n)) else before
      case _ => before
  }

  /** In every run a file belongs to the one who first opened it, and its row says what its
      last session was opened for. */
  lemma {:induction false} SessionsAreAsOpened(sha: Bytes -> string, ops: seq<Op>, fileId: string)
    ensures fileId in Run(sha, ops).files <==> LastOpening(ops, fileId).Some?
    ensures fileId in Run(sha, ops).files ==>
              var row := Run(sha, ops).files[fileId];
              LastOpening(ops, fileId) == Some(Opening(row.owner, row.name, row.totalSize, row.totalChunks))
  {
    if ops != [] {
      SessionsAreAsOpened(sha, ops[..|ops| - 1], fileId);
      OpeningStep(sha, Run(sha, ops[..|ops| - 1]), ops, fileId);
    }
  }

  lemma OpeningStep(sha: Bytes -> string, sv: Server, ops: seq<Op>, fileId: string)
    requires ops != []
    requires fileId in sv.files <==> LastOpening(ops[..|ops| - 1], fileId).Some?
    requires fileId in sv.files ==>
               var row := sv.files[fileId];
               LastOpening(ops[..|ops| - 1], fileId) == Some(Opening(row.owner, row.name, row.totalSize, row.totalChunks))
    ensures var files := Step(sha, sv, ops[|ops| - 1]).files;
            && (fileId in files <==> LastOpening(ops, fileId).Some?)
            && (fileId in files ==>
                  var row := files[fileId];
                  LastOpening(ops, fileId) == Some(Opening(row.owner, row.name, row.totalSize, row.totalChunks)))
  {
    var op := ops[|ops| - 1];
    if op.Chunk? && RefuseChunk(sha, sv.files, op.user, op.fileId, op.index, op.checksum, op.buffer).None? {
      ChunkGuards(sha, sv, op.user, op.fileId, op.index, op.checksum, op.buffer);
    }
  }
}
