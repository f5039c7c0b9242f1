/** `ReplicationService`: dispatching a file to its ring targets and repairing
    placements when a node dies. The database is a map of replication rows, the
    shared job queue a sequence; the health snapshot is passed in. */
module Replication {
  import opened Sequences
  import opened Decimals
  import opened EdgeNodes
  import opened RingModel
  import opened RingHistory
  import opened RingLookup
  import opened Placement
  import FileStatuses
  import HashRing

  type FileId = string

  datatype JobStatus = PENDING | IN_PROGRESS | COMPLETE | FAILED_JOB

  datatype LatestVersion = NoVersion | Version(number: nat)

  /** An absent storage path is the empty string: both are falsy. */
  datatype FileRow = FileRow(status: FileStatuses.FileStatus, storagePath: string, latest: LatestVersion)

  datatype Job = Job(fileId: FileId, versionId: string, edgeNodeId: NodeId, storagePath: string)

  type Records = map<(FileId, NodeId), JobStatus>

  function VersionString(v: LatestVersion): string {
    match v
    case NoVersion => "1"
    case Version(n) => Decimal(n)
  }

  function TargetIds(cfg: Config, healthy: seq<EdgeNodeRecord>, fileId: FileId): seq<NodeId> {
    Lookup(cfg, FreshRing(cfg, Ids(healthy)), fileId, REPLICATION_FACTOR)
  }

  function Targets(cfg: Config, healthy: seq<EdgeNodeRecord>, fileId: FileId): seq<EdgeNodeRecord> {
    Select(healthy, ToSet(TargetIds(cfg, healthy, fileId)))
  }

  function MarkPending(records: Records, pairs: set<(FileId, NodeId)>): Records {
    records + map p | p in pairs :: PENDING
  }

  function PairsOf(fileId: FileId, nodes: seq<EdgeNodeRecord>): set<(FileId, NodeId)> {
    set n | n in nodes :: (fileId, n.id)
  }

  function JobsFor(fileId: FileId, version: string, path: string, nodes: seq<EdgeNodeRecord>): (r: seq<Job>)
    ensures |r| == |nodes|
  {
    seq(|nodes|, i requires 0 <= i < |nodes| => Job(fileId, version, nodes[i].id, path))
  }

  // ---- which repairs a crash calls for ----

  predicate Live(s: JobStatus) {
    s == COMPLETE || s == PENDING || s == IN_PROGRESS
  }

  function CoveredIds(records: Records, fileId: FileId, dead: NodeId): set<NodeId> {
    set k | k in records.Keys && k.0 == fileId && k.1 != dead && Live(records[k]) :: k.1
  }

  /** Files placed on the dead node that are complete and stored. */
  function RepairableFiles(records: Records, files: map<FileId, FileRow>, dead: NodeId): set<FileId> {
    set k | k in records.Keys && k.1 == dead && k.0 in files &&
            files[k.0].status == FileStatuses.Completed && files[k.0].storagePath != "" :: k.0
  }

  function NeedingReplication(cfg: Config, records: Records, healthy: seq<EdgeNodeRecord>, dead: NodeId,
                              fileId: FileId): seq<EdgeNodeRecord> {
    Select(healthy, ToSet(TargetIds(cfg, healthy, fileId)) - CoveredIds(records, fileId, dead))
  }

  function PairsFor(cfg: Config, records: Records, healthy: seq<EdgeNodeRecord>, dead: NodeId,
                    done: set<FileId>): set<(FileId, NodeId)> {
    set f, n | f in done && n in NeedingReplication(cfg, records, healthy, dead, f) :: (f, n.id)
  }

  function RepairPairs(cfg: Config, records: Records, files: map<FileId, FileRow>, healthy: seq<EdgeNodeRecord>,
                       dead: NodeId): set<(FileId, NodeId)> {
    PairsFor(cfg, records, healthy, dead, RepairableFiles(records, files, dead))
  }

  function RepairJob(files: map<FileId, FileRow>, p: (FileId, NodeId)): Job
    requires p.0 in files
  {
    Job(p.0, VersionString(files[p.0].latest), p.1, files[p.0].storagePath)
  }

  /** The jobs put on the queue: one for each pair, in some order. */
  ghost predicate QueuesExactly(jobs: seq<Job>, files: map<FileId, FileRow>, pairs: set<(FileId, NodeId)>) {
    && |jobs| == |pairs|
    && (forall p :: p in pairs ==> p.0 in files && RepairJob(files, p) in jobs)
  }

  ghost predicate Appended(before: seq<Job>, after: seq<Job>, files: map<FileId, FileRow>, pairs: set<(FileId, NodeId)>) {
    before <= after && QueuesExactly(after[|before|..], files, pairs)
  }

  ghost predicate RingReady(cfg: Config, r: Ring, healthy: seq<EdgeNodeRecord>) {
    && Canonical(cfg, r) && NoCollision(cfg, ToSet(r.physicalNodes) + ToSet(Ids(healthy)))
    && cfg.virtualNodes >= 1 && "" !in Ids(healthy) && Distinct(Ids(healthy))
  }

  /** After `syncTopology` the shared ring answers as a fresh ring over the healthy nodes does. */
  lemma SyncedRingAnswers(cfg: Config, before: Ring, healthy: seq<EdgeNodeRecord>, fileId: FileId)
    requires RingReady(cfg, before, healthy)
    ensures var r := RingModel.SyncTopology(cfg, before, Ids(healthy));
            && RingReady(cfg, r, healthy)
            && ToSet(r.physicalNodes) == ToSet(Ids(healthy))
            && Wanted(r, REPLICATION_FACTOR) <= |LiveOwners(r)|
            && Lookup(cfg, r, fileId, REPLICATION_FACTOR) == TargetIds(cfg, healthy, fileId)
  {
    var r := RingModel.SyncTopology(cfg, before, Ids(healthy));
    SyncTopologyCanonical(cfg, before, Ids(healthy));
    assert ToSet(r.physicalNodes) + ToSet(Ids(healthy)) == ToSet(Ids(healthy));
    NoCollisionSubset(cfg, ToSet(Ids(healthy)), ToSet(before.physicalNodes) + ToSet(Ids(healthy)));
    FreshRingCanonical(cfg, Ids(healthy));
    LookupHistoryIndependent(cfg, r, FreshRing(cfg, Ids(healthy)), fileId, REPLICATION_FACTOR);
    assert "" !in ToSet(r.physicalNodes);
    CanonicalOwners(cfg, r);
  }

  // ---- the queue of one edge ----

  type EdgeQueues = map<NodeId, seq<Job>>

  function EdgeQueue(queues: EdgeQueues, id: NodeId): seq<Job> {
    if id in queues then queues[id] else []
  }

  /** The jobs of one node, in their order. */
  function JobsOf(queue: seq<Job>, id: NodeId): seq<Job> {
    if queue == [] then []
    else JobsOf(Front(queue), id) + if Last(queue).edgeNodeId == id then [Last(queue)] else []
  }

  /** Every job is queued twice: on its node's own queue and on the shared one. */
  ghost predicate Mirrored(queues: EdgeQueues, queue: seq<Job>) {
    forall id :: EdgeQueue(queues, id) == JobsOf(queue, id)
  }

  lemma MirrorPush(queues: EdgeQueues, queue: seq<Job>, job: Job)
    requires Mirrored(queues, queue)
    ensures Mirrored(queues[job.edgeNodeId := EdgeQueue(queues, job.edgeNodeId) + [job]], queue + [job])
  {
    Pushed(queue, job);
    var more := queues[job.edgeNodeId := EdgeQueue(queues, job.edgeNodeId) + [job]];
    forall id
      ensures EdgeQueue(more, id) == JobsOf(queue + [job], id)
    {
      assert EdgeQueue(queues, id) == JobsOf(queue, id);
      assert JobsOf(queue + [job], id) == JobsOf(queue, id) + if job.edgeNodeId == id then [job] else [];
    }
  }

  class ReplicationService {
    const hashRing: HashRing.HashRing
    var records: Records
    var queue: seq<Job>
    var edgeQueues: EdgeQueues

    constructor (hashRing: HashRing.HashRing)
      ensures this.hashRing == hashRing && records == map[] && queue == []
      ensures Mirrored(edgeQueues, queue)
    {
      this.hashRing := hashRing;
      records, queue, edgeQueues := map[], [], map[];
    }

    ghost predicate Ready(healthy: seq<EdgeNodeRecord>)
      reads hashRing
    {
      hashRing.Valid() && RingReady(hashRing.cfg, hashRing.Model(), healthy)
    }

    /** The shared ring holds the healthy nodes and no others. */
    ghost predicate Synced(healthy: seq<EdgeNodeRecord>)
      reads hashRing
    {
      Ready(healthy) && ToSet(hashRing.physicalNodes) == ToSet(Ids(healthy))
    }

    method DispatchReplication(fileId: FileId, version: LatestVersion, storagePath: string,
                               healthyNodes: seq<EdgeNodeRecord>)
      requires Ready(healthyNodes)
      modifies this, hashRing
      ensures Ready(healthyNodes)
      ensures old(Mirrored(edgeQueues, queue)) ==> Mirrored(edgeQueues, queue)
      ensures records == MarkPending(old(records), PairsOf(fileId, Targets(hashRing.cfg, healthyNodes, fileId)))
      ensures queue == old(queue) + JobsFor(fileId, match version case NoVersion => "1" case Version(n) => Decimal(n),
                                            storagePath, Targets(hashRing.cfg, healthyNodes, fileId))
    {
      if |healthyNodes| == 0 {
        NothingToEnqueue(records, fileId);
        return;
      }
      SyncedRingAnswers(hashRing.cfg, hashRing.Model(), healthyNodes, fileId);
      hashRing.SyncTopology(Ids(healthyNodes));
      var responsible := hashRing.GetNodes(fileId, REPLICATION_FACTOR);
      var targetNodes := Select(healthyNodes, ToSet(responsible));
      assert targetNodes == Targets(hashRing.cfg, healthyNodes, fileId);
      if |targetNodes| == 0 {
        NothingToEnqueue(records, fileId);
        return;
      }
      UpsertAndEnqueue(fileId, VersionString(version), storagePath, targetNodes);
    }

    /** The loop both operations share: mark each node's row PENDING and queue its job. */
    method UpsertAndEnqueue(fileId: FileId, versionStr: string, storagePath: string, nodes: seq<EdgeNodeRecord>)
      modifies this
      ensures records == MarkPending(old(records), PairsOf(fileId, nodes))
      ensures queue == old(queue) + JobsFor(fileId, versionStr, storagePath, nodes)
      ensures old(Mirrored(edgeQueues, queue)) ==> Mirrored(edgeQueues, queue)
    {
      var i := 0;
      while i < |nodes|
        invariant i <= |nodes|
        invariant old(Mirrored(edgeQueues, queue)) ==> Mirrored(edgeQueues, queue)
        invariant records == MarkPending(old(records), PairsOf(fileId, nodes[..i]))
        invariant queue == old(queue) + JobsFor(fileId, versionStr, storagePath, nodes[..i])
      {
        EnqueueStep(old(records), fileId, versionStr, storagePath, nodes, i);
        records := records[(fileId, nodes[i].id) := PENDING];
        var job := Job(fileId, versionStr, nodes[i].id, storagePath);
        if Mirrored(edgeQueues, queue) {
          MirrorPush(edgeQueues, queue, job);
        }
        edgeQueues := edgeQueues[nodes[i].id := EdgeQueue(edgeQueues, nodes[i].id) + [job]];
        queue := queue + [job];
        i := i + 1;
      }
      assert nodes[..i] == nodes;
    }

    ghost function Model(): Ledger
      reads this
    {
      Ledger(records, queue)
    }

    /** One turn of the repair loop: a file that is complete and stored has what it
        is short of computed from the rows as they stand, then marked and queued. */
    method RepairFile(fileId: FileId, files: map<FileId, FileRow>, deadEdgeId: NodeId, healthyNodes: seq<EdgeNodeRecord>)
      returns (evaluated: set<FileId>, dispatched: nat)
      requires Synced(healthyNodes)
      modifies this
      ensures Model() == RepairOne(hashRing.cfg, files, healthyNodes, deadEdgeId, old(Model()), fileId)
      ensures |queue| == |old(queue)| + dispatched
      ensures old(Mirrored(edgeQueues, queue)) ==> Mirrored(edgeQueues, queue)
      ensures evaluated == if IsStorable(files, fileId) then {fileId} else {}
    {
      if fileId !in files || files[fileId].status != FileStatuses.Completed || files[fileId].storagePath == "" {
        return {}, 0;
      }
      SameAnswers(hashRing.cfg, hashRing.Model(), healthyNodes, fileId);
      var targetNodeIds := hashRing.GetNodes(fileId, REPLICATION_FACTOR);
      var needing := Select(healthyNodes, ToSet(targetNodeIds) - CoveredIds(records, fileId, deadEdgeId));
      UpsertAndEnqueue(fileId, VersionString(files[fileId].latest), files[fileId].storagePath, needing);
      return {fileId}, |needing|;
    }

    method HandleEdgeCrashFailover(deadEdgeId: NodeId, healthyNodes: seq<EdgeNodeRecord>, files: map<FileId, FileRow>)
      returns (repairedFilesCount: nat, dispatchedJobsCount: nat)
      requires Ready(healthyNodes)
      modifies this, hashRing
      ensures Synced(healthyNodes)
      ensures old(Mirrored(edgeQueues, queue)) ==> Mirrored(edgeQueues, queue)
      ensures Repaired(hashRing.cfg, files, healthyNodes, deadEdgeId, old(Model()), Model(),
                       RepairableFiles(old(records), files, deadEdgeId))
      ensures dispatchedJobsCount == |RepairPairs(hashRing.cfg, old(records), files, healthyNodes, deadEdgeId)|
      ensures repairedFilesCount ==
              if healthyNodes == [] then 0 else |RepairableFiles(old(records), files, deadEdgeId)|
    {
      ghost var cfg := hashRing.cfg;
      SyncedRingAnswers(cfg, hashRing.Model(), healthyNodes, "");
      hashRing.SyncTopology(Ids(healthyNodes));
      if |healthyNodes| == 0 {
        NothingToRepair(cfg, files, deadEdgeId, Model());
        return 0, 0;
      }
      repairedFilesCount, dispatchedJobsCount := RepairAffected(deadEdgeId, healthyNodes, files);
    }

    /** The dead node's rows, in whatever order the database lists them. */
    method FindAffected(deadEdgeId: NodeId) returns (order: seq<FileId>)
      ensures Distinct(order) && ToSet(order) == AffectedFiles(records, deadEdgeId)
    {
      var pending := AffectedFiles(records, deadEdgeId);
      order := [];
      while pending != {}
        invariant Distinct(order) && ToSet(order) !! pending
        invariant ToSet(order) + pending == AffectedFiles(records, deadEdgeId)
        decreases pending
      {
        var fileId :| fileId in pending;
        Pushed(order, fileId);
        pending, order := pending - {fileId}, order + [fileId];
      }
    }

    method RepairAffected(deadEdgeId: NodeId, healthyNodes: seq<EdgeNodeRecord>, files: map<FileId, FileRow>)
      returns (repairedFilesCount: nat, dispatchedJobsCount: nat)
      requires Synced(healthyNodes)
      modifies this
      ensures Repaired(hashRing.cfg, files, healthyNodes, deadEdgeId, old(Model()), Model(),
                       RepairableFiles(old(records), files, deadEdgeId))
      ensures |queue| == |old(queue)| + dispatchedJobsCount
      ensures old(Mirrored(edgeQueues, queue)) ==> Mirrored(edgeQueues, queue)
      ensures repairedFilesCount == |RepairableFiles(old(records), files, deadEdgeId)|
    {
      var order := FindAffected(deadEdgeId);
      var uniqueFiles: set<FileId> := {};
      var i := 0;
      dispatchedJobsCount := 0;
      while i < |order|
        invariant i <= |order|
        invariant uniqueFiles == Storable(files, ToSet(order[..i]))
        invariant Model() == RepairLoop(hashRing.cfg, files, healthyNodes, deadEdgeId, old(Model()), order[..i])
        invariant |queue| == |old(queue)| + dispatchedJobsCount
        invariant old(Mirrored(edgeQueues, queue)) ==> Mirrored(edgeQueues, queue)
      {
        TakeOneMore(order, i);
        StorableStep(files, ToSet(order[..i]), order[i]);
        var evaluated, dispatched := RepairFile(order[i], files, deadEdgeId, healthyNodes);
        uniqueFiles := uniqueFiles + evaluated;
        dispatchedJobsCount := dispatchedJobsCount + dispatched;
        i := i + 1;
      }
      assert order[..i] == order;
      RepairLoopResult(hashRing.cfg, files, healthyNodes, deadEdgeId, old(Model()), order);
      RepairableAmongAffected(old(records), files, deadEdgeId);
      return |uniqueFiles|, dispatchedJobsCount;
    }
  }

  // ---- the repair loop as a fold over the affected files ----

  datatype Ledger = Ledger(records: Records, queue: seq<Job>)

  function AffectedFiles(records: Records, dead: NodeId): set<FileId> {
    set k | k in records.Keys && k.1 == dead :: k.0
  }

  predicate IsStorable(files: map<FileId, FileRow>, fileId: FileId) {
    fileId in files && files[fileId].status == FileStatuses.Completed && files[fileId].storagePath != ""
  }

  function Storable(files: map<FileId, FileRow>, among: set<FileId>): set<FileId> {
    set f | f in among && IsStorable(files, f)
  }

  lemma StorableStep(files: map<FileId, FileRow>, among: set<FileId>, f: FileId)
    ensures Storable(files, among + {f}) == Storable(files, among) + if IsStorable(files, f) then {f} else {}
  {
  }

  function RepairOne(cfg: Config, files: map<FileId, FileRow>, healthy: seq<EdgeNodeRecord>, dead: NodeId,
                     l: Ledger, fileId: FileId): Ledger {
    if IsStorable(files, fileId) then
      var needing := NeedingReplication(cfg, l.records, healthy, dead, fileId);
      Ledger(MarkPending(l.records, PairsOf(fileId, needing)),
             l.queue + JobsFor(fileId, VersionString(files[fileId].latest), files[fileId].storagePath, needing))
    else l
  }

  function RepairLoop(cfg: Config, files: map<FileId, FileRow>, healthy: seq<EdgeNodeRecord>, dead: NodeId,
                      l: Ledger, order: seq<FileId>): Ledger {
    if order == [] then l
    else RepairOne(cfg, files, healthy, dead, RepairLoop(cfg, files, healthy, dead, l, Front(order)), Last(order))
  }

  /** `l'` is `l` with exactly the missing pairs of the files in `done` marked and
      queued, judged by the rows of `l`. */
  ghost predicate Repaired(cfg: Config, files: map<FileId, FileRow>, healthy: seq<EdgeNodeRecord>, dead: NodeId,
                           l: Ledger, l': Ledger, done: set<FileId>) {
    var sent := PairsFor(cfg, l.records, healthy, dead, done);
    l'.records == MarkPending(l.records, sent) && Appended(l.queue, l'.queue, files, sent)
  }

  /** Whatever the order, the loop repairs exactly the storable files it is given. */
  lemma {:induction false} RepairLoopResult(cfg: Config, files: map<FileId, FileRow>, healthy: seq<EdgeNodeRecord>,
                                            dead: NodeId, l: Ledger, order: seq<FileId>)
    requires Distinct(order) && Distinct(Ids(healthy))
    ensures Repaired(cfg, files, healthy, dead, l, RepairLoop(cfg, files, healthy, dead, l, order),
                     Storable(files, ToSet(order)))
  {
    if order == [] {
      RepairNothing(cfg, files, healthy, dead, l);
      assert Storable(files, ToSet(order)) == {};
    } else {
      assert order == Front(order) + [Last(order)];
      Pushed(Front(order), Last(order));
      StorableStep(files, ToSet(Front(order)), Last(order));
      RepairLoopResult(cfg, files, healthy, dead, l, Front(order));
      RepairStep(cfg, files, healthy, dead, l, RepairLoop(cfg, files, healthy, dead, l, Front(order)),
                 Storable(files, ToSet(Front(order))), Last(order));
    }
  }

  lemma NothingToRepair(cfg: Config, files: map<FileId, FileRow>, dead: NodeId, l: Ledger)
    ensures Repaired(cfg, files, [], dead, l, l, RepairableFiles(l.records, files, dead))
    ensures |RepairPairs(cfg, l.records, files, [], dead)| == 0
  {
    assert RepairPairs(cfg, l.records, files, [], dead) == {};
    assert l.queue[|l.queue|..] == [];
  }

  lemma RepairNothing(cfg: Config, files: map<FileId, FileRow>, healthy: seq<EdgeNodeRecord>, dead: NodeId, l: Ledger)
    ensures Repaired(cfg, files, healthy, dead, l, l, {})
  {
    assert l.queue[|l.queue|..] == [];
  }

  lemma RepairStep(cfg: Config, files: map<FileId, FileRow>, healthy: seq<EdgeNodeRecord>, dead: NodeId,
                   l: Ledger, before: Ledger, done: set<FileId>, f: FileId)
    requires f !in done && Distinct(Ids(healthy))
    requires Repaired(cfg, files, healthy, dead, l, before, done)
    ensures Repaired(cfg, files, healthy, dead, l, RepairOne(cfg, files, healthy, dead, before, f),
                     done + if IsStorable(files, f) then {f} else {})
  {
    if IsStorable(files, f) {
      RepairStepRecords(cfg, files, healthy, dead, l, before, done, f);
      RepairStepQueue(cfg, files, healthy, dead, l, before, done, f);
    } else {
      assert done + {} == done;
    }
  }

  lemma RepairStepRecords(cfg: Config, files: map<FileId, FileRow>, healthy: seq<EdgeNodeRecord>, dead: NodeId,
                          l: Ledger, before: Ledger, done: set<FileId>, f: FileId)
    requires IsStorable(files, f) && f !in done
    requires before.records == MarkPending(l.records, PairsFor(cfg, l.records, healthy, dead, done))
    ensures NeedingReplication(cfg, before.records, healthy, dead, f)
            == NeedingReplication(cfg, l.records, healthy, dead, f)
    ensures RepairOne(cfg, files, healthy, dead, before, f).records
            == MarkPending(l.records, PairsFor(cfg, l.records, healthy, dead, done + {f}))
  {
    var sent := PairsFor(cfg, l.records, healthy, dead, done);
    var needing := NeedingReplication(cfg, l.records, healthy, dead, f);
    PairsForOneMore(cfg, l.records, healthy, dead, done, f);
    UntouchedFile(l.records, sent, f, dead);
    MarkTwice(l.records, sent, PairsOf(f, needing));
  }

  lemma RepairStepQueue(cfg: Config, files: map<FileId, FileRow>, healthy: seq<EdgeNodeRecord>, dead: NodeId,
                        l: Ledger, before: Ledger, done: set<FileId>, f: FileId)
    requires IsStorable(files, f) && f !in done && Distinct(Ids(healthy))
    requires Appended(l.queue, before.queue, files, PairsFor(cfg, l.records, healthy, dead, done))
    requires NeedingReplication(cfg, before.records, healthy, dead, f)
             == NeedingReplication(cfg, l.records, healthy, dead, f)
    ensures Appended(l.queue, RepairOne(cfg, files, healthy, dead, before, f).queue, files,
                     PairsFor(cfg, l.records, healthy, dead, done + {f}))
  {
    var needing := NeedingReplication(cfg, l.records, healthy, dead, f);
    PairsForOneMore(cfg, l.records, healthy, dead, done, f);
    SelectDistinct(healthy, ToSet(TargetIds(cfg, healthy, f)) - CoveredIds(l.records, f, dead));
    JobsCount(files, f, needing, PairsFor(cfg, l.records, healthy, dead, done), before.queue[|l.queue|..]);
    var more := JobsFor(f, VersionString(files[f].latest), files[f].storagePath, needing);
    TailOfAppend(before.queue, more, |l.queue|);
  }

  lemma RepairableAmongAffected(records: Records, files: map<FileId, FileRow>, dead: NodeId)
    ensures RepairableFiles(records, files, dead) == Storable(files, AffectedFiles(records, dead))
  {
  }

  lemma PairsForOneMore(cfg: Config, records: Records, healthy: seq<EdgeNodeRecord>, dead: NodeId,
                        done: set<FileId>, fileId: FileId)
    ensures PairsFor(cfg, records, healthy, dead, done + {fileId}) ==
            PairsFor(cfg, records, healthy, dead, done)
            + PairsOf(fileId, NeedingReplication(cfg, records, healthy, dead, fileId))
    ensures forall p :: p in PairsFor(cfg, records, healthy, dead, done) ==> p.0 in done
  {
  }

  lemma MarkTwice(records: Records, a: set<(FileId, NodeId)>, b: set<(FileId, NodeId)>)
    ensures MarkPending(MarkPending(records, a), b) == MarkPending(records, a + b)
  {
  }

  lemma EnqueueStep(records: Records, fileId: FileId, version: string, path: string, nodes: seq<EdgeNodeRecord>, i: nat)
    requires i < |nodes|
    ensures MarkPending(records, PairsOf(fileId, nodes[..i]))[(fileId, nodes[i].id) := PENDING]
            == MarkPending(records, PairsOf(fileId, nodes[..i + 1]))
    ensures JobsFor(fileId, version, path, nodes[..i]) + [Job(fileId, version, nodes[i].id, path)]
            == JobsFor(fileId, version, path, nodes[..i + 1])
  {
    assert nodes[..i + 1] == nodes[..i] + [nodes[i]];
    JobsPush(fileId, version, path, nodes[..i], nodes[i]);
    PairsPush(fileId, nodes[..i], nodes[i]);
    MarkTwice(records, PairsOf(fileId, nodes[..i]), {(fileId, nodes[i].id)});
    MarkOne(MarkPending(records, PairsOf(fileId, nodes[..i])), (fileId, nodes[i].id));
  }

  lemma MarkOne(records: Records, p: (FileId, NodeId))
    ensures MarkPending(records, {p}) == records[p := PENDING]
  {
  }

  lemma JobsPush(fileId: FileId, version: string, path: string, nodes: seq<EdgeNodeRecord>, node: EdgeNodeRecord)
    ensures JobsFor(fileId, version, path, nodes + [node])
            == JobsFor(fileId, version, path, nodes) + [Job(fileId, version, node.id, path)]
  {
  }

  lemma PairsPush(fileId: FileId, nodes: seq<EdgeNodeRecord>, node: EdgeNodeRecord)
    ensures PairsOf(fileId, nodes + [node]) == PairsOf(fileId, nodes) + {(fileId, node.id)}
  {
  }

  lemma NothingToEnqueue(records: Records, fileId: FileId)
    ensures MarkPending(records, PairsOf(fileId, [])) == records
  {
  }

  lemma SameAnswers(cfg: Config, r: Ring, healthy: seq<EdgeNodeRecord>, fileId: FileId)
    requires RingReady(cfg, r, healthy) && ToSet(r.physicalNodes) == ToSet(Ids(healthy))
    ensures Wanted(r, REPLICATION_FACTOR) <= |LiveOwners(r)|
    ensures Lookup(cfg, r, fileId, REPLICATION_FACTOR) == TargetIds(cfg, healthy, fileId)
  {
    NoCollisionSubset(cfg, ToSet(Ids(healthy)), ToSet(r.physicalNodes) + ToSet(Ids(healthy)));
    FreshRingCanonical(cfg, Ids(healthy));
    LookupHistoryIndependent(cfg, r, FreshRing(cfg, Ids(healthy)), fileId, REPLICATION_FACTOR);
    assert "" !in ToSet(r.physicalNodes);
    CanonicalOwners(cfg, r);
  }

  /** Repairs of other files do not change what a file still needs. */
  lemma UntouchedFile(records: Records, sent: set<(FileId, NodeId)>, fileId: FileId, dead: NodeId)
    requires forall p :: p in sent ==> p.0 != fileId
    ensures CoveredIds(MarkPending(records, sent), fileId, dead) == CoveredIds(records, fileId, dead)
  {
  }

  lemma JobsCount(files: map<FileId, FileRow>, fileId: FileId, nodes: seq<EdgeNodeRecord>,
                  sent: set<(FileId, NodeId)>, jobs: seq<Job>)
    requires fileId in files && Distinct(Ids(nodes))
    requires forall p :: p in sent ==> p.0 != fileId
    requires QueuesExactly(jobs, files, sent)
    ensures |sent + PairsOf(fileId, nodes)| == |sent| + |nodes|
    ensures QueuesExactly(
              jobs + JobsFor(fileId, VersionString(files[fileId].latest), files[fileId].storagePath, nodes),
              files, sent + PairsOf(fileId, nodes))
  {
    PairsSize(fileId, nodes);
    assert sent !! PairsOf(fileId, nodes);
    var more := JobsFor(fileId, VersionString(files[fileId].latest), files[fileId].storagePath, nodes);
    forall p | p in PairsOf(fileId, nodes) ensures RepairJob(files, p) in more {
      var i :| 0 <= i < |nodes| && nodes[i].id == p.1;
      assert more[i] == RepairJob(files, p);
    }
  }

  lemma {:induction false} PairsSize(fileId: FileId, nodes: seq<EdgeNodeRecord>)
    requires Distinct(Ids(nodes))
    ensures |PairsOf(fileId, nodes)| == |nodes|
  {
    if nodes != [] {
      assert Front(Ids(nodes)) == Ids(Front(nodes));
      PairsSize(fileId, Front(nodes));
      assert nodes == Front(nodes) + [Last(nodes)];
      assert PairsOf(fileId, nodes) == PairsOf(fileId, Front(nodes)) + {(fileId, Last(nodes).id)};
      forall n | n in Front(nodes) ensures n.id != Last(nodes).id {
        var i :| 0 <= i < |Front(nodes)| && Front(nodes)[i] == n;
        assert Ids(nodes)[i] != Ids(nodes)[|nodes| - 1];
      }
    }
  }
}
