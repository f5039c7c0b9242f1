/** Every version of a file keeps its own bytes: the round trip over a file's whole
    history of upload sessions, each with bytes of its own. */
module UploadVersions {
  import opened Chunks
  import opened FileStatuses
  import opened Options
  import opened Totals
  import opened Upload
  import opened UploadRoundTrip

  /** A completed version: where it is stored and the session that uploaded it. */
  datatype Version = Version(path: ObjectKey, session: nat)

  /** A file's history: the number of its current session, counted from 0, and its
      completed versions. */
  datatype Book = Book(session: nat, done: seq<Version>)

  predicate Completes(sv: Server, user: string, fileId: string, fate: Fate) {
    && RefuseCompletion(sv.files, user, fileId).None?
    && Assembles(sv.objects, fileId, |sv.files[fileId].chunks|, fate) && fate.Finishes?
  }

  /** A request for the file itself. */
  function Recorded(sv: Server, book: Book, op: Op): Book {
    match op
    case InitVersion(user, fileId, _, _, _) =>
      if RefuseOwner(sv.files, user, fileId).None? then book.(session := book.session + 1) else book
    case Complete(user, fileId, fate) =>
      if Completes(sv, user, fileId, fate) then
        var row := sv.files[fileId];
        book.(done := book.done + [Version(VersionObject(row.owner, fileId, row.versions + 1, row.name), book.session)])
      else book
    case _ => book
  }

  function BookOf(sha: Bytes -> string, ops: seq<Op>, fileId: string): Book {
    if ops == [] then Book(0, [])
    else
      var front, op := ops[..|ops| - 1], ops[|ops| - 1];
      var before := BookOf(sha, front, fileId);
      if op.fileId == fileId then Recorded(Run(sha, front), before, op) else before
  }

  /** Session `s` of the file uploads `plan(s)`: a new version starts the next session, and
      a chunk request belongs to the session it finds. */
  predicate HonestNow(op: Op, session: nat, user: string, fileId: string, plan: nat -> seq<Bytes>) {
    Honest(op, user, fileId, plan(if op.InitVersion? then session + 1 else session))
  }

  ghost predicate HonestRun(sha: Bytes -> string, ops: seq<Op>, user: string, fileId: string, plan: nat -> seq<Bytes>) {
    forall i :: 0 <= i < |ops| ==> HonestNow(ops[i], BookOf(sha, ops[..i], fileId).session, user, fileId, plan)
  }

  // ---- what every run keeps ----

  /** The `i`-th completed version, from 0, is stored with its session's bytes. */
  predicate VersionKept(objects: Objects, fileId: string, plan: nat -> seq<Bytes>, i: nat, v: Version) {
    && v.path.VersionObject? && v.path.fileId == fileId && v.path.version == i + 1
    && v.path in objects && objects[v.path] == Joined(plan(v.session))
  }

  ghost predicate VersionsKept(objects: Objects, fileId: string, plan: nat -> seq<Bytes>, done: seq<Version>) {
    forall i :: 0 <= i < |done| ==> VersionKept(objects, fileId, plan, i, done[i])
  }

  /** Each session completes at most once. */
  ghost predicate Rising(done: seq<Version>) {
    forall i :: 0 < i < |done| ==> done[i - 1].session < done[i].session
  }

  /** The row counts the completed versions and points at the last one; it says COMPLETED
      exactly when that is the current session's. */
  ghost predicate RowAgrees(row: FileRow, book: Book) {
    && row.versions == |book.done| && Rising(book.done)
    && row.storagePath == (if book.done == [] then None else Some(book.done[|book.done| - 1].path))
    && (book.done != [] ==> book.done[|book.done| - 1].session <= book.session)
    && (row.status == Completed <==> book.done != [] && book.done[|book.done| - 1].session == book.session)
  }

  ghost predicate Kept(sv: Server, user: string, fileId: string, plan: nat -> seq<Bytes>, book: Book) {
    && fileId in sv.files && sv.files[fileId].owner == user
    && PartsHeld(sv.objects, fileId, plan(book.session), sv.files[fileId])
    && VersionsKept(sv.objects, fileId, plan, book.done)
    && RowAgrees(sv.files[fileId], book)
  }

  /** The file's version objects up to number `n` stay as they are. */
  ghost predicate SameVersions(a: Objects, b: Objects, fileId: string, n: nat) {
    forall k :: k in a && k.VersionObject? && k.fileId == fileId && k.version <= n ==> k in b && b[k] == a[k]
  }

  lemma VersionsStay(a: Objects, b: Objects, fileId: string, plan: nat -> seq<Bytes>, done: seq<Version>)
    requires VersionsKept(a, fileId, plan, done) && SameVersions(a, b, fileId, |done|)
    ensures VersionsKept(b, fileId, plan, done)
  {
    forall i | 0 <= i < |done|
      ensures VersionKept(b, fileId, plan, i, done[i])
    {
      assert VersionKept(a, fileId, plan, i, done[i]);
    }
  }

  lemma VersionsPush(objects: Objects, fileId: string, plan: nat -> seq<Bytes>, done: seq<Version>, v: Version)
    requires VersionsKept(objects, fileId, plan, done) && VersionKept(objects, fileId, plan, |done|, v)
    ensures VersionsKept(objects, fileId, plan, done + [v])
  {
  }

  // ---- one request ----

  lemma ChunkKept(sha: Bytes -> string, sv: Server, op: Op, user: string, fileId: string, plan: nat -> seq<Bytes>, book: Book)
    requires op.Chunk? && op.fileId == fileId && HonestNow(op, book.session, user, fileId, plan)
    requires Kept(sv, user, fileId, plan, book)
    ensures Kept(Step(sha, sv, op), user, fileId, plan, book)
  {
    if RefuseChunk(sha, sv.files, op.user, fileId, op.index, op.checksum, op.buffer).None? {
      ChunkGuards(sha, sv, op.user, fileId, op.index, op.checksum, op.buffer);
      AcceptedKept(sha, sv, op.index, op.buffer, user, fileId, plan, book);
    }
  }

  lemma AcceptedKept(sha: Bytes -> string, sv: Server, index: nat, buffer: Bytes, user: string, fileId: string,
                     plan: nat -> seq<Bytes>, book: Book)
    requires Kept(sv, user, fileId, plan, book) && Open(sv.files[fileId].status)
    requires index < |plan(book.session)| && buffer == plan(book.session)[index]
    ensures Kept(Server(sv.files[fileId := AcceptRow(sha, sv.files[fileId], index, buffer)],
                        sv.objects[ChunkObject(fileId, index) := buffer]), user, fileId, plan, book)
  {
    AcceptHoldsParts(sha, sv.objects, fileId, plan(book.session), sv.files[fileId], index);
    VersionsStay(sv.objects, sv.objects[ChunkObject(fileId, index) := buffer], fileId, plan, book.done);
  }

  lemma NewSessionKept(sha: Bytes -> string, sv: Server, op: Op, user: string, fileId: string, plan: nat -> seq<Bytes>,
                       book: Book)
    requires op.InitVersion? && op.fileId == fileId && HonestNow(op, book.session, user, fileId, plan)
    requires Kept(sv, user, fileId, plan, book)
    ensures Kept(Step(sha, sv, op), user, fileId, plan, Recorded(sv, book, op))
  {
  }

  lemma AssemblyLeavesVersions(objects: Objects, row: FileRow, fileId: string, fate: Fate)
    ensures SameVersions(objects, AssembledObjects(objects, row, fileId, fate), fileId, row.versions)
  {
  }

  lemma RowOfNewVersion(row: FileRow, after: FileRow, book: Book, v: Version)
    requires RowAgrees(row, book) && row.status != Completed && v.session == book.session
    requires after == row.(status := Completed, versions := row.versions + 1, storagePath := Some(v.path))
    ensures RowAgrees(after, book.(done := book.done + [v]))
  {
  }

  /** The stored chunks become the next version. */
  lemma NewVersionKept(sv: Server, asker: string, user: string, fileId: string, plan: nat -> seq<Bytes>, book: Book,
                       after: Objects, v: Version)
    requires Kept(sv, user, fileId, plan, book) && Completes(sv, asker, fileId, Finishes)
    requires after == AssembledObjects(sv.objects, sv.files[fileId], fileId, Finishes)
    requires v == Version(Destination(sv.files[fileId], fileId), book.session)
    ensures VersionsKept(after, fileId, plan, book.done + [v])
  {
    AssemblyLeavesVersions(sv.objects, sv.files[fileId], fileId, Finishes);
    VersionsStay(sv.objects, after, fileId, plan, book.done);
    CompletionReadsParts(sv, asker, fileId, plan(book.session));
    VersionsPush(after, fileId, plan, book.done, v);
  }

  lemma FinishKept(sv: Server, asker: string, user: string, fileId: string, plan: nat -> seq<Bytes>, book: Book, next: Book)
    requires Kept(sv, user, fileId, plan, book) && Completes(sv, asker, fileId, Finishes)
    requires next == Recorded(sv, book, Complete(asker, fileId, Finishes))
    ensures Kept(CompleteUpload(sv, asker, fileId, Finishes), user, fileId, plan, next)
  {
    var row, after := sv.files[fileId], CompleteUpload(sv, asker, fileId, Finishes);
    var v := Version(Destination(row, fileId), book.session);
    NewVersionKept(sv, asker, user, fileId, plan, book, after.objects, v);
    RowOfNewVersion(row, after.files[fileId], book, v);
  }

  lemma FailureKept(sv: Server, asker: string, user: string, fileId: string, fate: Fate, plan: nat -> seq<Bytes>, book: Book)
    requires Kept(sv, user, fileId, plan, book) && !Completes(sv, asker, fileId, fate)
    ensures Kept(CompleteUpload(sv, asker, fileId, fate), user, fileId, plan, book)
  {
    var after := CompleteUpload(sv, asker, fileId, fate);
    if RefuseCompletion(sv.files, asker, fileId).None? {
      AssemblyLeavesVersions(sv.objects, sv.files[fileId], fileId, fate);
      VersionsStay(sv.objects, after.objects, fileId, plan, book.done);
    }
  }

  lemma CompletionKept(sv: Server, asker: string, user: string, fileId: string, fate: Fate, plan: nat -> seq<Bytes>,
                       book: Book, next: Book)
    requires Kept(sv, user, fileId, plan, book)
    requires next == Recorded(sv, book, Complete(asker, fileId, fate))
    ensures Kept(CompleteUpload(sv, asker, fileId, fate), user, fileId, plan, next)
  {
    if Completes(sv, asker, fileId, fate) {
      FinishKept(sv, asker, user, fileId, plan, book, next);
    } else {
      FailureKept(sv, asker, user, fileId, fate, plan, book);
    }
  }

  lemma OwnStepKept(sha: Bytes -> string, sv: Server, op: Op, user: string, fileId: string, plan: nat -> seq<Bytes>, book: Book)
    requires op.fileId == fileId && !op.Init? && HonestNow(op, book.session, user, fileId, plan)
    requires Kept(sv, user, fileId, plan, book)
    ensures Kept(Step(sha, sv, op), user, fileId, plan, Recorded(sv, book, op))
  {
    match op
    case Chunk(_, _, _, _, _) => ChunkKept(sha, sv, op, user, fileId, plan, book);
    case InitVersion(_, _, _, _, _) => NewSessionKept(sha, sv, op, user, fileId, plan, book);
    case Complete(asker, _, fate) => CompletionKept(sv, asker, user, fileId, fate, plan, book, Recorded(sv, book, op));
  }

  lemma OtherStepKept(sha: Bytes -> string, sv: Server, op: Op, user: string, fileId: string, plan: nat -> seq<Bytes>, book: Book)
    requires op.fileId != fileId && Kept(sv, user, fileId, plan, book)
    ensures Kept(Step(sha, sv, op), user, fileId, plan, book)
  {
    var after, row := Step(sha, sv, op), sv.files[fileId];
    OtherStepObjects(sha, sv, op, fileId);
    StepLeavesOthers(sha, sv, op, fileId);
    SamePartsHeld(sv.objects, after.objects, fileId, plan(book.session), row);
    VersionsStay(sv.objects, after.objects, fileId, plan, book.done);
  }

  lemma StepOnUnusedKept(sha: Bytes -> string, sv: Server, op: Op, user: string, fileId: string, plan: nat -> seq<Bytes>)
    requires op.fileId == fileId && HonestNow(op, 0, user, fileId, plan) && Unused(sv, fileId)
    ensures Recorded(sv, Book(0, []), op) == Book(0, [])
    ensures Unused(Step(sha, sv, op), fileId) || Kept(Step(sha, sv, op), user, fileId, plan, Book(0, []))
  {
  }

  // ---- every run ----

  ghost predicate UnusedOrKept(sv: Server, user: string, fileId: string, plan: nat -> seq<Bytes>, book: Book) {
    (Unused(sv, fileId) && book == Book(0, [])) || Kept(sv, user, fileId, plan, book)
  }

  lemma StepKept(sha: Bytes -> string, sv: Server, op: Op, user: string, fileId: string, plan: nat -> seq<Bytes>,
                 book: Book, next: Book)
    requires op.fileId == fileId ==> HonestNow(op, book.session, user, fileId, plan)
    requires op.Init? ==> op.fileId !in sv.files
    requires UnusedOrKept(sv, user, fileId, plan, book)
    requires next == if op.fileId == fileId then Recorded(sv, book, op) else book
    ensures UnusedOrKept(Step(sha, sv, op), user, fileId, plan, next)
  {
    if Unused(sv, fileId) && book == Book(0, []) {
      if op.fileId == fileId {
        StepOnUnusedKept(sha, sv, op, user, fileId, plan);
      } else {
        OtherStepHolds(sha, sv, op, user, fileId, []);
      }
    } else if op.fileId == fileId {
      OwnStepKept(sha, sv, op, user, fileId, plan, book);
    } else {
      OtherStepKept(sha, sv, op, user, fileId, plan, book);
    }
  }

  lemma FrontIsFresh(sha: Bytes -> string, ops: seq<Op>, front: seq<Op>)
    requires FreshIds(sha, ops) && front <= ops
    ensures FreshIds(sha, front)
  {
    forall i | 0 <= i < |front| && front[i].Init?
      ensures front[i].fileId !in Run(sha, front[..i]).files
    {
      assert front[..i] == ops[..i] && front[i] == ops[i];
    }
  }

  lemma FrontIsHonest(sha: Bytes -> string, ops: seq<Op>, front: seq<Op>, user: string, fileId: string, plan: nat -> seq<Bytes>)
    requires HonestRun(sha, ops, user, fileId, plan) && front <= ops
    ensures HonestRun(sha, front, user, fileId, plan)
  {
    forall i | 0 <= i < |front|
      ensures HonestNow(front[i], BookOf(sha, front[..i], fileId).session, user, fileId, plan)
    {
      assert front[..i] == ops[..i] && front[i] == ops[i];
    }
  }

  lemma {:induction false} RunKept(sha: Bytes -> string, ops: seq<Op>, user: string, fileId: string, plan: nat -> seq<Bytes>)
    requires FreshIds(sha, ops) && HonestRun(sha, ops, user, fileId, plan)
    ensures UnusedOrKept(Run(sha, ops), user, fileId, plan, BookOf(sha, ops, fileId))
  {
    if ops != [] {
      var front, op := ops[..|ops| - 1], ops[|ops| - 1];
      FrontIsFresh(sha, ops, front);
      FrontIsHonest(sha, ops, front, user, fileId, plan);
      RunKept(sha, front, user, fileId, plan);
      StepKept(sha, Run(sha, front), op, user, fileId, plan, BookOf(sha, front, fileId), BookOf(sha, ops, fileId));
    }
  }

  /** A session whose chunks have all arrived does become a version when its completion
      meets no failure. */
  lemma FullSessionBecomesVersion(sha: Bytes -> string, sv: Server, user: string, fileId: string,
                                  plan: nat -> seq<Bytes>, book: Book)
    requires Kept(sv, user, fileId, plan, book) && plan(book.session) != []
    requires RefuseCompletion(sv.files, user, fileId).None?
    ensures var next := Recorded(sv, book, Complete(user, fileId, Finishes));
            && |next.done| == |book.done| + 1 && next.done[|book.done|].session == book.session
            && Kept(CompleteUpload(sv, user, fileId, Finishes), user, fileId, plan, next)
  {
    CompletionReadsParts(sv, user, fileId, plan(book.session));
    CompletionKept(sv, user, user, fileId, Finishes, plan, book, Recorded(sv, book, Complete(user, fileId, Finishes)));
  }

  /** What is recorded stays recorded. */
  lemma {:induction false} HistoryGrows(sha: Bytes -> string, ops: seq<Op>, n: nat, fileId: string)
    requires n <= |ops|
    ensures BookOf(sha, ops[..n], fileId).done <= BookOf(sha, ops, fileId).done
  {
    if n == |ops| {
      assert ops[..n] == ops;
    } else {
      var front := ops[..|ops| - 1];
      HistoryGrows(sha, front, n, fileId);
      assert front[..n] == ops[..n];
    }
  }

  /** The round trip per version. Whatever anyone else does in between, and however often
      the owner replaces the file, every version once completed is stored for ever, under
      its own number, as the file its session was cut from; the row points at the last. */
  lemma EveryVersionIsItsFile(sha: Bytes -> string, ops: seq<Op>, user: string, fileId: string, plan: nat -> seq<Bytes>,
                              files: nat -> Bytes, sizes: nat -> nat, n: nat, i: nat)
    requires FreshIds(sha, ops) && HonestRun(sha, ops, user, fileId, plan)
    requires forall s: nat :: sizes(s) > 0 && plan(s) == SplitFile(files(s), sizes(s))
    requires n <= |ops| && i < |BookOf(sha, ops[..n], fileId).done|
    ensures var v := BookOf(sha, ops[..n], fileId).done[i];
            var sv, book := Run(sha, ops), BookOf(sha, ops, fileId);
            && v.path.VersionObject? && v.path.fileId == fileId && v.path.version == i + 1
            && v.path in sv.objects && sv.objects[v.path] == files(v.session)
            && fileId in sv.files && RowAgrees(sv.files[fileId], book)
  {
    HistoryGrows(sha, ops, n, fileId);
    RunKept(sha, ops, user, fileId, plan);
    var book := BookOf(sha, ops, fileId);
    var v := book.done[i];
    assert VersionKept(Run(sha, ops).objects, fileId, plan, i, v);
    SplitJoined(files(v.session), sizes(v.session));
  }
}
