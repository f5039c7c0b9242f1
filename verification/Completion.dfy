/** Concurrent `completeUpload` calls on one upload session, one database or storage
    operation at a time, among chunk uploads. A chunk upload carries the status its
    guard read, which may be out of date when its transaction writes. */
module Completion {
  import opened Chunks
  import opened FileStatuses
  import opened Options
  import opened Totals
  import opened Upload

  /** The file row with its chunk rows, the chunk objects, the version objects by
      number, and the version rows by identifier. */
  datatype File = File(status: FileStatus, verified: seq<bool>, chunks: map<nat, Bytes>,
                       assembled: map<nat, Bytes>, versions: map<string, nat>, currentVersion: Option<string>)

  /** Where a call stands: what it has done so far. */
  datatype Call =
    | Ready
    | Claimed
    | Numbered(next: nat)
    | Assembled(next: nat)
    | Purged(next: nat)
    | Versioned(next: nat, id: string)
    | Finished(id: string)
    | Returned(id: string)
    | Throwing
    | Raised
    | Stuck
    | Refused(error: UploadError)

  /** `claims` lists the calls whose conditional update matched, in order. */
  datatype State = State(file: File, calls: map<int, Call>, claims: seq<int>)

  datatype Event =
    | UploadChunk(seen: FileStatus, index: nat, buffer: Bytes)
    | Begin(call: int)
    | Claim(call: int)
    | Number(call: int)
    | NumberFails(call: int)
    | Assemble(call: int)
    | Purge(call: int)
    | CreateVersion(call: int, id: string)
    | Finish(call: int)
    | Tail(call: int)
    | Throw(call: int)
    | Catch(call: int)

  predicate AllVerified(verified: seq<bool>) {
    forall i :: 0 <= i < |verified| ==> verified[i]
  }

  ghost function Highest(numbers: set<nat>): (m: nat)
    ensures forall x :: x in numbers ==> x <= m
    ensures if numbers == {} then m == 0 else m in numbers
  {
    if numbers == {} then 0
    else
      var x :| x in numbers;
      var m := Highest(numbers - {x});
      assert numbers == numbers - {x} + {x};
      if x < m then m else x
  }

  /** One more than the highest version number, or 1. */
  ghost function NextVersion(versions: map<string, nat>): nat {
    Highest(versions.Values) + 1
  }

  function Received(verified: seq<bool>): nat {
    if verified == [] then 0
    else Received(verified[..|verified| - 1]) + if verified[|verified| - 1] then 1 else 0
  }

  predicate Whole(chunks: map<nat, Bytes>, n: nat) {
    forall i :: 0 <= i < n ==> i in chunks
  }

  function InOrder(chunks: map<nat, Bytes>, n: nat): seq<Bytes>
    requires Whole(chunks, n)
  {
    seq(n, i requires 0 <= i < n => chunks[i])
  }

  // ---- one step ----

  predicate At(s: State, t: int, c: Call) {
    t in s.calls && s.calls[t] == c
  }

  function Moved(s: State, t: int, c: Call): State {
    s.(calls := s.calls[t := c])
  }

  function ChunkStep(s: State, seen: FileStatus, index: nat, buffer: Bytes): State {
    if !Open(seen) || index >= |s.file.verified| then s
    else s.(file := s.file.(status := Uploading, verified := s.file.verified[index := true],
                            chunks := s.file.chunks[index := buffer]))
  }

  function BeginStep(s: State, t: int): State {
    if t in s.calls then s
    else if s.file.status == Completed then Moved(s, t, Refused(AlreadyCompleted))
    else if !AllVerified(s.file.verified) then Moved(s, t, Refused(Incomplete(Received(s.file.verified))))
    else Moved(s, t, Ready)
  }

  function ClaimStep(s: State, t: int): State {
    if Open(s.file.status) then State(s.file.(status := Assembling), s.calls[t := Claimed], s.claims + [t])
    else Moved(s, t, Refused(CompletionInProgress))
  }

  /** A missing chunk object makes the assembly throw. */
  function AssembleStep(s: State, t: int, next: nat): State {
    if !Whole(s.file.chunks, |s.file.verified|) then Moved(s, t, Throwing)
    else
      var whole := Joined(InOrder(s.file.chunks, |s.file.verified|));
      State(s.file.(assembled := s.file.assembled[next := whole]), s.calls[t := Assembled(next)], s.claims)
  }

  /** Version numbers and identifiers are unique. */
  function CreateStep(s: State, t: int, next: nat, id: string): State {
    if next in s.file.versions.Values || id in s.file.versions then Moved(s, t, Throwing)
    else State(s.file.(versions := s.file.versions[id := next]), s.calls[t := Versioned(next, id)], s.claims)
  }

  function FinishStep(s: State, t: int, id: string): State {
    State(s.file.(status := Completed, currentVersion := Some(id)), s.calls[t := Finished(id)], s.claims)
  }

  /** The handler fails the file only while it is still being assembled. */
  function CatchStep(s: State, t: int): State {
    if s.file.status == Assembling then State(s.file.(status := Failed), s.calls[t := Raised], s.claims)
    else Moved(s, t, Raised)
  }

  predicate InTry(c: Call) {
    c.Numbered? || c.Assembled? || c.Purged? || c.Versioned? || c.Finished?
  }

  ghost function CallStep(s: State, e: Event): State
    requires !e.UploadChunk?
  {
    if e.Begin? then BeginStep(s, e.call)
    else if e.call !in s.calls then s
    else
      var t, c := e.call, s.calls[e.call];
      match e
      case Claim(_) => if c.Ready? then ClaimStep(s, t) else s
      case Number(_) => if c.Claimed? then Moved(s, t, Numbered(NextVersion(s.file.versions))) else s
      case NumberFails(_) => if c.Claimed? then Moved(s, t, Stuck) else s
      case Assemble(_) => if c.Numbered? then AssembleStep(s, t, c.next) else s
      case Purge(_) =>
        if c.Assembled? then State(s.file.(chunks := map[]), s.calls[t := Purged(c.next)], s.claims) else s
      case CreateVersion(_, id) => if c.Purged? then CreateStep(s, t, c.next, id) else s
      case Finish(_) => if c.Versioned? then FinishStep(s, t, c.id) else s
      case Tail(_) => if c.Finished? then Moved(s, t, Returned(c.id)) else s
      case Throw(_) => if InTry(c) then Moved(s, t, Throwing) else s
      case Catch(_) => if c.Throwing? then CatchStep(s, t) else s
      case Begin(_) => s
  }

  ghost function Step(s: State, e: Event): State {
    if e.UploadChunk? then ChunkStep(s, e.seen, e.index, e.buffer) else CallStep(s, e)
  }

  ghost function Run(file: File, events: seq<Event>): State {
    if events == [] then State(file, map[], [])
    else Step(Run(file, events[..|events| - 1]), events[|events| - 1])
  }

  // ---- what a session starts from, and what its chunk uploads are ----

  /** An open session whose verified chunks are the parts. */
  ghost predicate Starts(file: File, parts: seq<Bytes>) {
    && Open(file.status) && |file.verified| == |parts|
    && Held(file, parts)
  }

  ghost predicate Held(file: File, parts: seq<Bytes>)
    requires |file.verified| == |parts|
  {
    && (forall i :: i in file.chunks && i < |parts| ==> file.chunks[i] == parts[i])
    && (forall i :: 0 <= i < |parts| && file.verified[i] ==> i in file.chunks)
  }

  /** A chunk upload is timely if the row is still open when its transaction writes. */
  predicate Timely(s: State, e: Event) {
    e.UploadChunk? && Open(e.seen) ==> Open(s.file.status)
  }

  predicate Fits(e: Event, parts: seq<Bytes>) {
    e.UploadChunk? && e.index < |parts| ==> e.buffer == parts[e.index]
  }

  ghost predicate AllTimely(file: File, events: seq<Event>) {
    forall i :: 0 <= i < |events| ==> Timely(Run(file, events[..i]), events[i])
  }

  predicate AllFit(events: seq<Event>, parts: seq<Bytes>) {
    forall i :: 0 <= i < |events| ==> Fits(events[i], parts)
  }

  // ---- the invariant ----

  ghost predicate NewVersion(file: File, start: File, id: string) {
    id !in start.versions && file.versions == start.versions[id := NextVersion(start.versions)]
  }

  ghost predicate Stored(file: File, start: File, parts: seq<Bytes>) {
    var n := NextVersion(start.versions);
    n in file.assembled && file.assembled[n] == Joined(parts)
  }

  /** Nothing but objects has been written. */
  ghost predicate Untouched(file: File, start: File) {
    file.versions == start.versions && file.currentVersion == start.currentVersion
  }

  ghost predicate Done(file: File, start: File, parts: seq<Bytes>, id: string) {
    && file.status == Completed && NewVersion(file, start, id)
    && file.currentVersion == Some(id) && Stored(file, start, parts)
  }

  ghost predicate Committed(file: File, start: File, parts: seq<Bytes>) {
    file.currentVersion.Some? && Done(file, start, parts, file.currentVersion.value)
  }

  /** At most the new version row has been written. */
  ghost predicate Unfinished(file: File, start: File) {
    && file.currentVersion == start.currentVersion
    && (file.versions == start.versions || exists id :: NewVersion(file, start, id))
  }

  /** What the file looks like, by where the winner stands. */
  ghost predicate Winner(c: Call, file: File, start: File, parts: seq<Bytes>)
    requires |file.verified| == |parts|
  {
    match c
    case Claimed => file.status == Assembling && Untouched(file, start) && AllVerified(file.verified) && Held(file, parts)
    case Numbered(next) =>
      && file.status == Assembling && Untouched(file, start) && AllVerified(file.verified) && Held(file, parts)
      && next == NextVersion(start.versions)
    case Assembled(next) =>
      && file.status == Assembling && Untouched(file, start)
      && next == NextVersion(start.versions) && Stored(file, start, parts)
    case Purged(next) =>
      && file.status == Assembling && Untouched(file, start)
      && next == NextVersion(start.versions) && Stored(file, start, parts)
    case Versioned(next, id) =>
      && file.status == Assembling && NewVersion(file, start, id) && file.currentVersion == start.currentVersion
      && Stored(file, start, parts)
    case Finished(id) => Done(file, start, parts, id)
    case Returned(id) => Done(file, start, parts, id)
    case Throwing => Committed(file, start, parts) || (file.status == Assembling && Unfinished(file, start))
    case Raised => Committed(file, start, parts) || (file.status == Failed && Unfinished(file, start))
    case Stuck => file.status == Assembling && Untouched(file, start)
    case _ => false
  }

  predicate Loser(c: Call, verified: seq<bool>) {
    c.Refused? || (c.Ready? && AllVerified(verified))
  }

  ghost predicate LosersOnly(s: State, but: Option<int>) {
    forall t :: t in s.calls && Some(t) != but ==> Loser(s.calls[t], s.file.verified)
  }

  ghost predicate Inv(s: State, start: File, parts: seq<Bytes>) {
    && |s.file.verified| == |parts|
    && if s.claims == [] then
         Open(s.file.status) && Untouched(s.file, start) && Held(s.file, parts) && LosersOnly(s, None)
       else
         var t := s.claims[0];
         && s.claims == [t] && t in s.calls && LosersOnly(s, Some(t)) && AllVerified(s.file.verified)
         && Winner(s.calls[t], s.file, start, parts)
  }

  lemma ChunkKeepsInv(s: State, e: Event, start: File, parts: seq<Bytes>)
    requires Inv(s, start, parts) && e.UploadChunk? && Timely(s, e) && Fits(e, parts)
    ensures Inv(Step(s, e), start, parts)
    ensures Step(s, e).file != s.file ==> s.claims == []
  {
  }

  /** `m` is above every number in use, and none is skipped. */
  ghost predicate Follows(numbers: set<nat>, m: nat) {
    (forall x :: x in numbers ==> x < m) && (m == 1 || m - 1 in numbers)
  }

  lemma NewNumber(versions: map<string, nat>)
    ensures Follows(versions.Values, NextVersion(versions)) && NextVersion(versions) !in versions.Values
  {
  }

  /** The one row added, if any, has the number that follows those in use. */
  ghost predicate OneMoreVersion(before: map<string, nat>, after: map<string, nat>, id: string) {
    && id !in before && id in after && after == before[id := after[id]]
    && Follows(before.Values, after[id])
  }

  /** The file is completed: it points at the new version, and the object under that
      version's number is the joined chunks. */
  ghost predicate CompletedWith(file: File, start: File, parts: seq<Bytes>, id: string) {
    && file.status == Completed && file.currentVersion == Some(id)
    && OneMoreVersion(start.versions, file.versions, id)
    && file.versions[id] in file.assembled && file.assembled[file.versions[id]] == Joined(parts)
  }

  lemma AssembleKeepsInv(s: State, t: int, start: File, parts: seq<Bytes>)
    requires Inv(s, start, parts) && s.claims == [t] && s.calls[t].Numbered?
    ensures Inv(AssembleStep(s, t, s.calls[t].next), start, parts)
  {
    assert InOrder(s.file.chunks, |parts|) == parts;
  }

  lemma CreateKeepsInv(s: State, t: int, id: string, start: File, parts: seq<Bytes>)
    requires Inv(s, start, parts) && s.claims == [t] && s.calls[t].Purged?
    ensures Inv(CreateStep(s, t, s.calls[t].next, id), start, parts)
    ensures id !in s.file.versions ==> CreateStep(s, t, s.calls[t].next, id).calls[t] == Versioned(s.calls[t].next, id)
  {
    NewNumber(start.versions);
  }

  lemma ThrowKeepsInv(s: State, t: int, start: File, parts: seq<Bytes>)
    requires Inv(s, start, parts) && s.claims == [t] && InTry(s.calls[t])
    ensures Inv(Moved(s, t, Throwing), start, parts)
  {
    var c := s.calls[t];
    if c.Versioned? {
      assert NewVersion(s.file, start, c.id);
    }
  }

  lemma CatchKeepsInv(s: State, t: int, start: File, parts: seq<Bytes>)
    requires Inv(s, start, parts) && s.claims == [t] && s.calls[t].Throwing?
    ensures Inv(CatchStep(s, t), start, parts)
  {
    if !Committed(s.file, start, parts) && s.file.versions != start.versions {
      var id :| NewVersion(s.file, start, id);
      assert NewVersion(CatchStep(s, t).file, start, id);
    }
  }

  lemma WinnerStep(s: State, e: Event, start: File, parts: seq<Bytes>)
    requires Inv(s, start, parts) && !e.UploadChunk? && !e.Begin?
    requires s.claims == [e.call]
    ensures Inv(Step(s, e), start, parts)
  {
    var t, c := e.call, s.calls[e.call];
    if e.Assemble? {
      if c.Numbered? {
        AssembleKeepsInv(s, t, start, parts);
      }
    } else if e.CreateVersion? {
      if c.Purged? {
        CreateKeepsInv(s, t, e.id, start, parts);
      }
    } else if e.Throw? {
      if InTry(c) {
        ThrowKeepsInv(s, t, start, parts);
      }
    } else if e.Catch? {
      if c.Throwing? {
        CatchKeepsInv(s, t, start, parts);
      }
    }
  }

  lemma OtherStep(s: State, e: Event, start: File, parts: seq<Bytes>)
    requires Inv(s, start, parts) && !e.UploadChunk?
    requires e.Begin? || s.claims != [e.call]
    ensures Inv(Step(s, e), start, parts)
    ensures Step(s, e).file != s.file ==> s.claims == [] && Step(s, e).claims == [e.call]
  {
  }

  lemma {:induction false} RunKeepsInv(start: File, events: seq<Event>, parts: seq<Bytes>)
    requires Starts(start, parts) && AllTimely(start, events) && AllFit(events, parts)
    ensures Inv(Run(start, events), start, parts)
  {
    if events != [] {
      var front, e := events[..|events| - 1], events[|events| - 1];
      forall i | 0 <= i < |front|
        ensures Timely(Run(start, front[..i]), front[i])
      {
        assert front[..i] == events[..i];
      }
      RunKeepsInv(start, front, parts);
      StepKeepsInv(Run(start, front), e, start, parts);
    }
  }

  lemma StepKeepsInv(s: State, e: Event, start: File, parts: seq<Bytes>)
    requires Inv(s, start, parts) && Timely(s, e) && Fits(e, parts)
    ensures Inv(Step(s, e), start, parts)
    ensures !e.UploadChunk? && Step(s, e).file != s.file ==> Step(s, e).claims == [e.call]
    ensures s.file.status == Completed ==> Step(s, e).file == s.file
  {
    if e.UploadChunk? {
      ChunkKeepsInv(s, e, start, parts);
    } else if e.Begin? || s.claims != [e.call] {
      OtherStep(s, e, start, parts);
    } else {
      WinnerStep(s, e, start, parts);
    }
  }

  // ---- the race ----

  /** However the operations of any number of completions and timely chunk uploads
      interleave: at most one completion claims the session; at most one version row
      appears, and its number is the least above those in use; and a completed file points
      at that version, whose object is the joined chunks. */
  lemma OneWinner(start: File, events: seq<Event>, parts: seq<Bytes>)
    requires Starts(start, parts) && AllTimely(start, events) && AllFit(events, parts)
    ensures var s := Run(start, events);
            && |s.claims| <= 1
            && (s.file.versions == start.versions || exists id :: OneMoreVersion(start.versions, s.file.versions, id))
            && (if s.file.status == Completed then
                  s.file.currentVersion.Some? && CompletedWith(s.file, start, parts, s.file.currentVersion.value)
                else s.file.currentVersion == start.currentVersion)
  {
    RunKeepsInv(start, events, parts);
    InvOutcome(Run(start, events), start, parts);
    var file := Run(start, events).file;
    NewNumber(start.versions);
    if file.versions != start.versions {
      var id :| NewVersion(file, start, id);
      assert OneMoreVersion(start.versions, file.versions, id);
    }
  }

  lemma InvOutcome(s: State, start: File, parts: seq<Bytes>)
    requires Inv(s, start, parts)
    ensures |s.claims| <= 1
    ensures s.file.versions == start.versions || exists id :: NewVersion(s.file, start, id)
    ensures if s.file.status == Completed then Committed(s.file, start, parts)
            else s.file.currentVersion == start.currentVersion
  {
    if s.claims != [] {
      WinnerOutcome(s.calls[s.claims[0]], s.file, start, parts);
    }
  }

  lemma WinnerOutcome(c: Call, file: File, start: File, parts: seq<Bytes>)
    requires |file.verified| == |parts| && Winner(c, file, start, parts)
    ensures Committed(file, start, parts) || (file.status != Completed && Unfinished(file, start))
    ensures Committed(file, start, parts) ==> file.status == Completed && exists id :: NewVersion(file, start, id)
  {
    if c.Versioned? || c.Finished? || c.Returned? {
      assert NewVersion(file, start, c.id);
    }
    if Committed(file, start, parts) {
      assert NewVersion(file, start, file.currentVersion.value);
    }
  }

  /** A step that changes the file is a chunk upload before any claim, or the winner's. */
  lemma LosersChangeNothing(start: File, events: seq<Event>, e: Event, parts: seq<Bytes>)
    requires Starts(start, parts) && AllTimely(start, events) && AllFit(events, parts)
    requires Timely(Run(start, events), e) && Fits(e, parts)
    ensures var s := Run(start, events);
            Step(s, e).file != s.file ==> if e.UploadChunk? then s.claims == [] else Step(s, e).claims == [e.call]
  {
    RunKeepsInv(start, events, parts);
    StepKeepsInv(Run(start, events), e, start, parts);
    if e.UploadChunk? {
      ChunkKeepsInv(Run(start, events), e, start, parts);
    }
  }

  /** Once completed the file never changes again in the session, whatever still throws. */
  lemma {:induction false} CompletedIsFinal(start: File, events: seq<Event>, parts: seq<Bytes>, i: nat)
    requires Starts(start, parts) && AllTimely(start, events) && AllFit(events, parts)
    requires i <= |events| && Run(start, events[..i]).file.status == Completed
    ensures Run(start, events).file == Run(start, events[..i]).file
  {
    if i == |events| {
      assert events[..i] == events;
    } else {
      var front, e := events[..|events| - 1], events[|events| - 1];
      forall j | 0 <= j < |front|
        ensures Timely(Run(start, front[..j]), front[j])
      {
        assert front[..j] == events[..j];
      }
      assert front[..i] == events[..i];
      CompletedIsFinal(start, front, parts, i);
      RunKeepsInv(start, front, parts);
      StepKeepsInv(Run(start, front), e, start, parts);
    }
  }

  /** A call that has not begun, or has read the session and is about to claim. */
  predicate MayClaim(s: State, t: int) {
    t !in s.calls || s.calls[t].Ready?
  }

  lemma ReopensIff(s: State, e: Event, t: int, start: File, parts: seq<Bytes>)
    requires Inv(s, start, parts) && s.claims != [] && MayClaim(s, t)
    requires e.UploadChunk? && e.index < |s.file.verified|
    ensures var begun := Step(Step(s, e), Begin(t));
            Step(begun, Claim(t)).claims == if Open(e.seen) then s.claims + [t] else s.claims
  {
    var begun := Step(Step(s, e), Begin(t));
    assert Open(e.seen) ==> AllVerified(Step(s, e).file.verified);
    assert t in begun.calls;
  }

  /** After the one claim of any run that `OneWinner` covers, one more chunk upload with a
      valid index lets a second completion, waiting or new, claim the session exactly when
      its own check had read an open status. */
  lemma StaleChunkReopensIff(start: File, events: seq<Event>, parts: seq<Bytes>, e: Event, t: int)
    requires Starts(start, parts) && AllTimely(start, events) && AllFit(events, parts)
    requires Run(start, events).claims != [] && MayClaim(Run(start, events), t)
    requires e.UploadChunk? && e.index < |parts|
    ensures |Run(start, events + [e] + [Begin(t)] + [Claim(t)]).claims| == if Open(e.seen) then 2 else 1
  {
    RunKeepsInv(start, events, parts);
    RunOne(start, events, e);
    RunOne(start, events + [e], Begin(t));
    RunOne(start, events + [e] + [Begin(t)], Claim(t));
    ReopensIff(Run(start, events), e, t, start, parts);
  }

  /** So with chunk uploads whose check is out of date two completions can claim. */
  lemma StaleChunkBreaksExclusion(start: File)
    requires start == File(Uploading, [true], map[0 := [7]], map[], map[], None)
    ensures Starts(start, [[7]])
    ensures var events := [Begin(1), Begin(2), Claim(1), UploadChunk(Uploading, 0, [7]), Claim(2)];
            AllFit(events, [[7]]) && Run(start, events).claims == [1, 2]
  {
    var e1, e2, e3, e4 := Begin(1), Begin(2), Claim(1), UploadChunk(Uploading, 0, [7]);
    SecondWaits(start);
    RunOne(start, [e1, e2, e3], e4);
    assert [e1, e2, e3] + [e4] == [e1, e2, e3, e4];
    RunOne(start, [e1, e2, e3, e4], Claim(2));
    assert [e1, e2, e3, e4] + [Claim(2)] == [e1, e2, e3, e4, Claim(2)];
  }

  lemma BothReady(start: File)
    requires Open(start.status) && start.verified == [true]
    ensures var s := Run(start, [Begin(1), Begin(2)]);
            s.claims == [] && At(s, 1, Ready) && At(s, 2, Ready) && s.file == start
  {
    assert Run(start, []) == State(start, map[], []);
    RunOne(start, [], Begin(1));
    assert [] + [Begin(1)] == [Begin(1)];
    var s1 := Run(start, [Begin(1)]);
    assert s1 == BeginStep(State(start, map[], []), 1);
    RunOne(start, [Begin(1)], Begin(2));
    assert [Begin(1)] + [Begin(2)] == [Begin(1), Begin(2)];
  }

  lemma SecondWaits(start: File)
    requires Open(start.status) && start.verified == [true]
    ensures var s := Run(start, [Begin(1), Begin(2), Claim(1)]);
            s.claims == [1] && At(s, 2, Ready) && s.file == start.(status := Assembling)
  {
    BothReady(start);
    var es := [Begin(1), Begin(2)];
    RunOne(start, es, Claim(1));
    assert es + [Claim(1)] == [Begin(1), Begin(2), Claim(1)];
    assert Step(Run(start, es), Claim(1)) == ClaimStep(Run(start, es), 1);
  }

  lemma RunOne(start: File, events: seq<Event>, e: Event)
    ensures Run(start, events + [e]) == Step(Run(start, events), e)
  {
    assert (events + [e])[..|events|] == events;
  }

  lemma {:induction false} ReceivedIs(verified: seq<bool>) returns (received: set<nat>)
    ensures forall i: nat :: i in received <==> i < |verified| && verified[i]
    ensures |received| == Received(verified)
  {
    received := {};
    if verified != [] {
      var n := |verified| - 1;
      received := ReceivedIs(verified[..n]);
      if verified[n] {
        received := received + {n};
      }
    }
  }

  /** A call is told at its start that the file is completed, or how many chunks have been
      received when one is missing, and otherwise goes on; and at its claim that another
      call is at it exactly when the session is not open. */
  lemma CallsAreToldWhy(s: State, t: int) returns (received: set<nat>)
    requires t !in s.calls
    ensures forall i: nat :: i in received <==> i < |s.file.verified| && s.file.verified[i]
    ensures var begun := Step(s, Begin(t));
            && t in begun.calls
            && begun.calls[t] == (if s.file.status == Completed then Refused(AlreadyCompleted)
                                  else if exists i :: 0 <= i < |s.file.verified| && !s.file.verified[i] then
                                    Refused(Incomplete(|received|))
                                  else Ready)
            && (begun.calls[t].Ready? ==>
                  Step(begun, Claim(t)).calls[t] == (if s.file.status == Pending || s.file.status == Uploading then Claimed
                                                     else Refused(CompletionInProgress)))
  {
    received := ReceivedIs(s.file.verified);
  }

  lemma WinnerAssembles(s: State, t: int, start: File, parts: seq<Bytes>)
    requires Inv(s, start, parts) && s.claims == [t] && At(s, t, Claimed)
    ensures var purged := Step(Step(Step(s, Number(t)), Assemble(t)), Purge(t));
            && Inv(purged, start, parts) && purged.claims == [t] && t in purged.calls && purged.calls[t].Purged?
            && purged.file.versions == s.file.versions
  {
    var numbered := Step(s, Number(t));
    AssembleKeepsInv(numbered, t, start, parts);
  }

  /** A winner nothing throws at completes the file with the next version. */
  lemma WinnerCompletes(s: State, t: int, id: string, start: File, parts: seq<Bytes>)
    requires Inv(s, start, parts) && s.claims == [t] && At(s, t, Claimed) && id !in s.file.versions
    ensures var purged := Step(Step(Step(s, Number(t)), Assemble(t)), Purge(t));
            var end := Step(Step(purged, CreateVersion(t, id)), Finish(t)).file;
            CompletedWith(end, start, parts, id) && end.chunks == map[]
  {
    NewNumber(start.versions);
    WinnerAssembles(s, t, start, parts);
    var purged := Step(Step(Step(s, Number(t)), Assemble(t)), Purge(t));
    CreateKeepsInv(purged, t, id, start, parts);
  }

  // ---- a session nobody disturbs ----

  /** The first `n` parts, one upload each. */
  function Uploads(parts: seq<Bytes>, n: nat): seq<Event>
    requires n <= |parts|
  {
    if n == 0 then [] else Uploads(parts, n - 1) + [UploadChunk(Uploading, n - 1, parts[n - 1])]
  }

  ghost predicate Filled(s: State, start: File, parts: seq<Bytes>, n: nat) {
    && Inv(s, start, parts) && s.claims == [] && s.calls == map[] && n <= |s.file.verified|
    && forall i :: 0 <= i < n ==> s.file.verified[i]
  }

  lemma {:induction false} UploadsFill(start: File, parts: seq<Bytes>, n: nat)
    requires Starts(start, parts) && n <= |parts|
    ensures Filled(Run(start, Uploads(parts, n)), start, parts, n)
  {
    if n > 0 {
      var s, e := Run(start, Uploads(parts, n - 1)), UploadChunk(Uploading, n - 1, parts[n - 1]);
      UploadsFill(start, parts, n - 1);
      RunOne(start, Uploads(parts, n - 1), e);
      StepKeepsInv(s, e, start, parts);
    }
  }

  lemma RunFive(start: File, events: seq<Event>, a: Event, b: Event, c: Event, d: Event, e: Event)
    ensures Run(start, events + [a, b, c, d, e]) == Step(Step(Step(Step(Step(Run(start, events), a), b), c), d), e)
  {
    RunOne(start, events, a);
    RunOne(start, events + [a], b);
    RunOne(start, events + [a] + [b], c);
    RunOne(start, events + [a] + [b] + [c], d);
    RunOne(start, events + [a] + [b] + [c] + [d], e);
    FiveAppended(events, a, b, c, d, e);
  }

  lemma FiveAppended(events: seq<Event>, a: Event, b: Event, c: Event, d: Event, e: Event)
    ensures events + [a] + [b] + [c] + [d] + [e] == events + [a, b, c, d, e]
  {
  }

  lemma FullSessionIsClaimed(start: File, events: seq<Event>, parts: seq<Bytes>, t: int)
    requires Filled(Run(start, events), start, parts, |parts|)
    ensures var s := Run(start, events + [Begin(t)] + [Claim(t)]);
            Inv(s, start, parts) && s.claims == [t] && At(s, t, Claimed) && s.file.versions == start.versions
  {
    var s := Run(start, events);
    RunOne(start, events, Begin(t));
    RunOne(start, events + [Begin(t)], Claim(t));
    OtherStep(s, Begin(t), start, parts);
    OtherStep(Step(s, Begin(t)), Claim(t), start, parts);
  }

  /** Every part uploaded once, in order, and one completion: the file is completed with
      the parts joined under the next version. */
  lemma UndisturbedUploadCompletes(start: File, parts: seq<Bytes>, t: int, id: string)
    requires Starts(start, parts) && id !in start.versions
    ensures var claimed := Uploads(parts, |parts|) + [Begin(t)] + [Claim(t)];
            var end := Run(start, claimed + [Number(t), Assemble(t), Purge(t), CreateVersion(t, id), Finish(t)]).file;
            CompletedWith(end, start, parts, id) && end.chunks == map[]
  {
    var claimed := Uploads(parts, |parts|) + [Begin(t)] + [Claim(t)];
    UploadsFill(start, parts, |parts|);
    FullSessionIsClaimed(start, Uploads(parts, |parts|), parts, t);
    RunFive(start, claimed, Number(t), Assemble(t), Purge(t), CreateVersion(t, id), Finish(t));
    WinnerCompletes(Run(start, claimed), t, id, start, parts);
  }
}
