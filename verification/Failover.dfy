/** What a crash repair achieves, as statements about the rows it starts from
    and the ring over the nodes that stay healthy. */
module Failover {
  import opened Sequences
  import opened EdgeNodes
  import opened RingModel
  import opened RingLookup
  import opened Placement
  import opened Replication
  import opened Decimals
  import FileStatuses

  lemma RepairMarks(cfg: Config, files: map<FileId, FileRow>, healthy: seq<EdgeNodeRecord>, dead: NodeId,
                    l: Ledger, l': Ledger)
    requires Repaired(cfg, files, healthy, dead, l, l', RepairableFiles(l.records, files, dead))
    ensures forall f, n :: (f in RepairableFiles(l.records, files, dead) &&
                            n in NeedingReplication(cfg, l.records, healthy, dead, f)) ==>
              (f, n.id) in l'.records && l'.records[(f, n.id)] == PENDING
    ensures forall k :: k in l.records ==> k in l'.records && (l'.records[k] == l.records[k] || l'.records[k] == PENDING)
  {
    forall f, n | f in RepairableFiles(l.records, files, dead) && n in NeedingReplication(cfg, l.records, healthy, dead, f)
      ensures (f, n.id) in l'.records && l'.records[(f, n.id)] == PENDING
    {
      assert (f, n.id) in PairsFor(cfg, l.records, healthy, dead, RepairableFiles(l.records, files, dead));
    }
  }

  /** What a crash calls for, in terms of the rows alone: the file was placed on the dead
      node and is complete and stored, and the node is healthy and one of its ring
      targets, and it is the dead node itself, or has no row, or one that failed. */
  predicate CalledFor(cfg: Config, records: Records, files: map<FileId, FileRow>, healthy: seq<EdgeNodeRecord>,
                      dead: NodeId, f: FileId, id: NodeId)
  {
    && (f, dead) in records
    && f in files && files[f].status == FileStatuses.Completed && files[f].storagePath != ""
    && id in Ids(healthy) && id in TargetIds(cfg, healthy, f)
    && (id == dead || (f, id) !in records || records[(f, id)] == FAILED_JOB)
  }

  lemma RepairedPairIff(cfg: Config, records: Records, files: map<FileId, FileRow>, healthy: seq<EdgeNodeRecord>,
                        dead: NodeId, f: FileId, id: NodeId)
    ensures (f, id) in RepairPairs(cfg, records, files, healthy, dead) <==> CalledFor(cfg, records, files, healthy, dead, f, id)
  {
    RepairableIff(records, files, dead, f);
    NeedingIff(cfg, records, healthy, dead, f, id);
  }

  lemma RepairableIff(records: Records, files: map<FileId, FileRow>, dead: NodeId, f: FileId)
    ensures f in RepairableFiles(records, files, dead) <==>
              (f, dead) in records && f in files && files[f].status == FileStatuses.Completed && files[f].storagePath != ""
  {
    if (f, dead) in records {
      assert (f, dead) in records.Keys;
    }
  }

  lemma NeedingIff(cfg: Config, records: Records, healthy: seq<EdgeNodeRecord>, dead: NodeId, f: FileId, id: NodeId)
    ensures (exists n :: n in NeedingReplication(cfg, records, healthy, dead, f) && n.id == id) <==>
              && id in Ids(healthy) && id in TargetIds(cfg, healthy, f)
              && (id == dead || (f, id) !in records || records[(f, id)] == FAILED_JOB)
  {
    IdsMember(healthy);
    CoveredIff(records, f, dead, id);
  }

  lemma CoveredIff(records: Records, f: FileId, dead: NodeId, id: NodeId)
    ensures id !in CoveredIds(records, f, dead) <==> id == dead || (f, id) !in records || records[(f, id)] == FAILED_JOB
  {
    if (f, id) in records {
      assert (f, id) in records.Keys;
    }
  }

  /** A repair marks exactly the pairs called for and leaves every other row as it was. */
  lemma RepairMarksExactly(cfg: Config, files: map<FileId, FileRow>, healthy: seq<EdgeNodeRecord>, dead: NodeId,
                           l: Ledger, l': Ledger, f: FileId, id: NodeId)
    requires Repaired(cfg, files, healthy, dead, l, l', RepairableFiles(l.records, files, dead))
    ensures if CalledFor(cfg, l.records, files, healthy, dead, f, id) then
              (f, id) in l'.records && l'.records[(f, id)] == PENDING
            else
              && ((f, id) in l'.records <==> (f, id) in l.records)
              && ((f, id) in l.records ==> l'.records[(f, id)] == l.records[(f, id)])
  {
    RepairedPairIff(cfg, l.records, files, healthy, dead, f, id);
  }

  /** The job names the file's latest version, or "1" if it has none, and its object. */
  predicate CarriesOut(files: map<FileId, FileRow>, job: Job) {
    && job.fileId in files && job.storagePath == files[job.fileId].storagePath
    && job.versionId == match files[job.fileId].latest case NoVersion => "1" case Version(n) => Decimal(n)
  }

  /** And it queues one job for each of them and no other. */
  lemma RepairQueuesExactly(cfg: Config, files: map<FileId, FileRow>, healthy: seq<EdgeNodeRecord>, dead: NodeId,
                            l: Ledger, l': Ledger, job: Job)
    requires Repaired(cfg, files, healthy, dead, l, l', RepairableFiles(l.records, files, dead))
    ensures l.queue <= l'.queue && Distinct(l'.queue[|l.queue|..])
    ensures job in l'.queue[|l.queue|..] <==>
              CalledFor(cfg, l.records, files, healthy, dead, job.fileId, job.edgeNodeId) && CarriesOut(files, job)
  {
    var pairs := RepairPairs(cfg, l.records, files, healthy, dead);
    RepairedPairIff(cfg, l.records, files, healthy, dead, job.fileId, job.edgeNodeId);
    OneJobEach(l'.queue[|l.queue|..], files, pairs, job);
  }

  lemma OneJobEach(jobs: seq<Job>, files: map<FileId, FileRow>, pairs: set<(FileId, NodeId)>, job: Job)
    requires QueuesExactly(jobs, files, pairs)
    ensures Distinct(jobs)
    ensures job in jobs <==> (job.fileId, job.edgeNodeId) in pairs && CarriesOut(files, job)
  {
    var wanted := JobsOfPairs(files, pairs);
    NoRoomForMore(jobs, wanted);
    assert job in jobs <==> job in wanted;
    if (job.fileId, job.edgeNodeId) in pairs && CarriesOut(files, job) {
      assert job == RepairJob(files, (job.fileId, job.edgeNodeId));
    }
  }

  lemma {:induction false} JobsOfPairs(files: map<FileId, FileRow>, pairs: set<(FileId, NodeId)>) returns (wanted: set<Job>)
    requires forall p :: p in pairs ==> p.0 in files
    ensures |wanted| == |pairs|
    ensures forall p :: p in pairs ==> RepairJob(files, p) in wanted
    ensures forall job :: job in wanted ==>
              (job.fileId, job.edgeNodeId) in pairs && job == RepairJob(files, (job.fileId, job.edgeNodeId))
  {
    wanted := {};
    if pairs != {} {
      var p :| p in pairs;
      wanted := JobsOfPairs(files, pairs - {p});
      wanted := wanted + {RepairJob(files, p)};
    }
  }

  /** After a repair every ring target of every repairable file, other than the
      dead node itself, has a row that is complete, pending or in progress. */
  lemma RepairCoversTargets(cfg: Config, files: map<FileId, FileRow>, healthy: seq<EdgeNodeRecord>, dead: NodeId,
                            l: Ledger, l': Ledger, f: FileId, n: EdgeNodeRecord)
    requires Repaired(cfg, files, healthy, dead, l, l', RepairableFiles(l.records, files, dead))
    requires f in RepairableFiles(l.records, files, dead)
    requires n in Targets(cfg, healthy, f) && n.id != dead
    ensures (f, n.id) in l'.records
    ensures var row := l'.records[(f, n.id)]; row == COMPLETE || row == PENDING || row == IN_PROGRESS
  {
    RepairMarks(cfg, files, healthy, dead, l, l');
    if n.id in CoveredIds(l.records, f, dead) {
      assert (f, n.id) in l.records;
    } else {
      assert n in NeedingReplication(cfg, l.records, healthy, dead, f);
    }
  }

  /** A repair neither adds nor removes files to repair. */
  lemma SameFilesToRepair(cfg: Config, files: map<FileId, FileRow>, healthy: seq<EdgeNodeRecord>, dead: NodeId,
                          l: Ledger, l': Ledger)
    requires Repaired(cfg, files, healthy, dead, l, l', RepairableFiles(l.records, files, dead))
    ensures RepairableFiles(l'.records, files, dead) == RepairableFiles(l.records, files, dead)
  {
    RepairMarks(cfg, files, healthy, dead, l, l');
    forall f | f in RepairableFiles(l.records, files, dead) ensures f in RepairableFiles(l'.records, files, dead) {
      assert (f, dead) in l'.records.Keys;
    }
    forall f | f in RepairableFiles(l'.records, files, dead) ensures f in RepairableFiles(l.records, files, dead) {
      assert (f, dead) in l'.records.Keys;
      if (f, dead) !in l.records {
        assert (f, dead) in PairsFor(cfg, l.records, healthy, dead, RepairableFiles(l.records, files, dead));
      }
    }
  }

  /** Running the repair again dispatches nothing if and only if the dead node is
      not itself a ring target of a file to repair, as it is when the repair runs
      while the node still counts as healthy. */
  lemma RerunDispatchesNothingIff(cfg: Config, files: map<FileId, FileRow>, healthy: seq<EdgeNodeRecord>, dead: NodeId,
                                  l: Ledger, l': Ledger)
    requires Repaired(cfg, files, healthy, dead, l, l', RepairableFiles(l.records, files, dead))
    ensures RepairPairs(cfg, l'.records, files, healthy, dead) == {}
            <==> forall f :: f in RepairableFiles(l.records, files, dead) ==> dead !in Ids(Targets(cfg, healthy, f))
  {
    if f :| f in RepairableFiles(l.records, files, dead) && dead in Ids(Targets(cfg, healthy, f)) {
      CalledForAgain(cfg, files, healthy, dead, l, l', f, dead);
      RepairedPairIff(cfg, l'.records, files, healthy, dead, f, dead);
    } else {
      forall p: (FileId, NodeId) ensures p !in RepairPairs(cfg, l'.records, files, healthy, dead) {
        assert p == (p.0, p.1);
        CalledForAgain(cfg, files, healthy, dead, l, l', p.0, p.1);
        RepairedPairIff(cfg, l'.records, files, healthy, dead, p.0, p.1);
      }
      assert RepairPairs(cfg, l'.records, files, healthy, dead) == {};
    }
  }

  /** A file's targets are the first three nodes clockwise of it on the healthy ring. */
  lemma TargetsAreFirstThree(cfg: Config, healthy: seq<EdgeNodeRecord>, f: FileId)
    requires NoCollision(cfg, ToSet(Ids(healthy)))
    ensures var order := Clockwise(FreshRing(cfg, Ids(healthy)), cfg.hashFn(f));
            TargetIds(cfg, healthy, f) == if |order| <= 3 then order else order[..3]
  {
    FreshRingCanonical(cfg, Ids(healthy));
    LookupTakes(cfg, FreshRing(cfg, Ids(healthy)), f, REPLICATION_FACTOR);
  }

  /** After a repair only the dead node itself can be called for. */
  lemma CalledForAgain(cfg: Config, files: map<FileId, FileRow>, healthy: seq<EdgeNodeRecord>, dead: NodeId,
                       l: Ledger, l': Ledger, f: FileId, id: NodeId)
    requires Repaired(cfg, files, healthy, dead, l, l', RepairableFiles(l.records, files, dead))
    ensures CalledFor(cfg, l'.records, files, healthy, dead, f, id) <==>
              id == dead && f in RepairableFiles(l.records, files, dead) && dead in Ids(Targets(cfg, healthy, f))
  {
    SameFilesToRepair(cfg, files, healthy, dead, l, l');
    RepairableIff(l.records, files, dead, f);
    RepairableIff(l'.records, files, dead, f);
    RepairMarksExactly(cfg, files, healthy, dead, l, l', f, id);
    TargetIff(cfg, healthy, f, dead);
  }

  lemma TargetIff(cfg: Config, healthy: seq<EdgeNodeRecord>, f: FileId, id: NodeId)
    ensures id in Ids(Targets(cfg, healthy, f)) <==> id in Ids(healthy) && id in TargetIds(cfg, healthy, f)
  {
    IdsMember(healthy);
    IdsMember(Targets(cfg, healthy, f));
  }

  lemma LoneTarget(cfg: Config, node: EdgeNodeRecord, fileId: FileId)
    requires NoCollision(cfg, {node.id}) && cfg.virtualNodes >= 1 && node.id != ""
    ensures TargetIds(cfg, [node], fileId) == [node.id]
  {
    var r := FreshRing(cfg, [node.id]);
    assert Ids([node]) == [node.id];
    OneElement(node.id);
    FreshRingCanonical(cfg, [node.id]);
    assert "" !in ToSet(r.physicalNodes);
    OrderComplete(cfg, r, cfg.hashFn(fileId));
    LookupTakes(cfg, r, fileId, REPLICATION_FACTOR);
    OnlyElement(Clockwise(r, cfg.hashFn(fileId)), node.id);
  }

  lemma OneElement(id: NodeId)
    ensures ToSet([id]) == {id}
  {
  }

  lemma OnlyElement(order: seq<NodeId>, id: NodeId)
    requires Distinct(order) && ToSet(order) == {id}
    ensures order == [id]
  {
    DistinctSize(order);
    assert id in order && order[0] in ToSet(order);
  }

  lemma LoneNeeds(cfg: Config, records: Records, node: EdgeNodeRecord, fileId: FileId)
    requires NoCollision(cfg, {node.id}) && cfg.virtualNodes >= 1 && node.id != ""
    ensures NeedingReplication(cfg, records, [node], node.id, fileId) == [node]
  {
    LoneTarget(cfg, node, fileId);
    var chosen := ToSet(TargetIds(cfg, [node], fileId)) - CoveredIds(records, fileId, node.id);
    assert node.id in TargetIds(cfg, [node], fileId);
    assert Front([node]) == [] && Select([], chosen) == [];
  }

  /** It does dispatch again: with the dead node still the one healthy node, every
      repair of a file placed on it queues the same job. */
  lemma RerunDispatchesAgain(cfg: Config, files: map<FileId, FileRow>, node: EdgeNodeRecord, l: Ledger, fileId: FileId,
                             once: Ledger, twice: Ledger)
    requires NoCollision(cfg, {node.id}) && cfg.virtualNodes >= 1 && node.id != ""
    requires l.records.Keys == {(fileId, node.id)} && IsStorable(files, fileId)
    requires once == RepairLoop(cfg, files, [node], node.id, l, [fileId])
    requires twice == RepairLoop(cfg, files, [node], node.id, once, [fileId])
    ensures Repaired(cfg, files, [node], node.id, l, once, RepairableFiles(l.records, files, node.id))
    ensures once.queue == l.queue + [RepairJob(files, (fileId, node.id))]
    ensures twice.queue == once.queue + [RepairJob(files, (fileId, node.id))]
  {
    LoneRepair(cfg, files, node, l, fileId);
    LoneTurn(cfg, files, node, l, fileId);
    LoneTurn(cfg, files, node, once, fileId);
  }

  lemma LoneRepair(cfg: Config, files: map<FileId, FileRow>, node: EdgeNodeRecord, l: Ledger, fileId: FileId)
    requires l.records.Keys == {(fileId, node.id)} && IsStorable(files, fileId)
    ensures Repaired(cfg, files, [node], node.id, l, RepairLoop(cfg, files, [node], node.id, l, [fileId]),
                     RepairableFiles(l.records, files, node.id))
  {
    LoneFile(l.records, files, fileId, node.id);
    assert Ids([node]) == [node.id];
    RepairLoopResult(cfg, files, [node], node.id, l, [fileId]);
  }

  lemma LoneFile(records: Records, files: map<FileId, FileRow>, fileId: FileId, dead: NodeId)
    requires records.Keys == {(fileId, dead)} && IsStorable(files, fileId)
    ensures RepairableFiles(records, files, dead) == Storable(files, ToSet([fileId]))
  {
    assert (fileId, dead) in records.Keys;
    OneElement(fileId);
  }

  lemma LoneTurn(cfg: Config, files: map<FileId, FileRow>, node: EdgeNodeRecord, l: Ledger, fileId: FileId)
    requires NoCollision(cfg, {node.id}) && cfg.virtualNodes >= 1 && node.id != "" && IsStorable(files, fileId)
    ensures RepairLoop(cfg, files, [node], node.id, l, [fileId]).queue == l.queue + [RepairJob(files, (fileId, node.id))]
  {
    LoneNeeds(cfg, l.records, node, fileId);
    assert Front([fileId]) == [] && Last([fileId]) == fileId;
    assert JobsFor(fileId, VersionString(files[fileId].latest), files[fileId].storagePath, [node])
           == [RepairJob(files, (fileId, node.id))];
  }

  /** In particular the repair is idempotent once the dead node has left the healthy set. */
  lemma RerunAfterDeathDispatchesNothing(cfg: Config, files: map<FileId, FileRow>, healthy: seq<EdgeNodeRecord>,
                                         dead: NodeId, l: Ledger, l': Ledger)
    requires Repaired(cfg, files, healthy, dead, l, l', RepairableFiles(l.records, files, dead))
    requires dead !in Ids(healthy)
    ensures RepairPairs(cfg, l'.records, files, healthy, dead) == {}
  {
    forall f | f in RepairableFiles(l.records, files, dead) ensures dead !in Ids(Targets(cfg, healthy, f)) {
      IdsMember(healthy);
      IdsMember(Targets(cfg, healthy, f));
    }
    RerunDispatchesNothingIff(cfg, files, healthy, dead, l, l');
  }

  /** The ring the file was placed on: the healthy nodes and the one that died. */
  function RingBeforeCrash(cfg: Config, healthy: seq<EdgeNodeRecord>, dead: NodeId): Ring {
    FreshRing(cfg, Ids(healthy) + [dead])
  }

  /** The targets after a crash are the targets before it without the dead node,
      followed by one successor if the dead node was among them. */
  lemma TargetsAfterCrash(cfg: Config, healthy: seq<EdgeNodeRecord>, dead: NodeId, fileId: FileId)
    requires NoCollision(cfg, ToSet(Ids(healthy)) + {dead}) && dead !in Ids(healthy)
    ensures var order := Clockwise(RingBeforeCrash(cfg, healthy, dead), cfg.hashFn(fileId));
            var placed := Lookup(cfg, RingBeforeCrash(cfg, healthy, dead), fileId, REPLICATION_FACTOR);
            TargetIds(cfg, healthy, fileId) ==
              if dead !in placed then placed
              else Without(placed, dead) + if REPLICATION_FACTOR < |order| then [order[REPLICATION_FACTOR]] else []
  {
    var wide, narrow := RingBeforeCrash(cfg, healthy, dead), FreshRing(cfg, Ids(healthy));
    var order := Clockwise(wide, cfg.hashFn(fileId));
    assert ToSet(Ids(healthy) + [dead]) == ToSet(Ids(healthy)) + {dead} by { Pushed(Ids(healthy), dead); }
    NoCollisionSubset(cfg, ToSet(Ids(healthy)), ToSet(Ids(healthy)) + {dead});
    FreshRingCanonical(cfg, Ids(healthy) + [dead]);
    FreshRingCanonical(cfg, Ids(healthy));
    OrderOfSubset(cfg, wide, narrow, cfg.hashFn(fileId));
    OrderElements(cfg, wide, cfg.hashFn(fileId));
    RestrictSame(order, ToSet(Ids(healthy)), ToSet(order) - {dead});
    LookupTakes(cfg, wide, fileId, REPLICATION_FACTOR);
    LookupTakes(cfg, narrow, fileId, REPLICATION_FACTOR);
    TakeWithout(order, dead, REPLICATION_FACTOR);
  }

  /** If a file's other replicas are covered, its repair is at most one job, and
      that job goes to the successor the ring lets in for the dead node. */
  lemma AtMostOneRepairPerFile(cfg: Config, records: Records, healthy: seq<EdgeNodeRecord>, dead: NodeId, fileId: FileId)
    requires NoCollision(cfg, ToSet(Ids(healthy)) + {dead}) && dead !in Ids(healthy) && Distinct(Ids(healthy))
    requires forall n :: n in Lookup(cfg, RingBeforeCrash(cfg, healthy, dead), fileId, REPLICATION_FACTOR) && n != dead ==>
               n in CoveredIds(records, fileId, dead)
    ensures var order := Clockwise(RingBeforeCrash(cfg, healthy, dead), cfg.hashFn(fileId));
            var needing := NeedingReplication(cfg, records, healthy, dead, fileId);
            && |needing| <= 1
            && (forall n :: n in needing ==>
                  dead in Take(order, REPLICATION_FACTOR) && REPLICATION_FACTOR < |order| && n.id == order[REPLICATION_FACTOR])
  {
    var order := Clockwise(RingBeforeCrash(cfg, healthy, dead), cfg.hashFn(fileId));
    var needing := NeedingReplication(cfg, records, healthy, dead, fileId);
    forall n | n in needing
      ensures dead in Take(order, REPLICATION_FACTOR) && REPLICATION_FACTOR < |order| && n.id == order[REPLICATION_FACTOR]
    {
      OnlyTheSuccessor(cfg, records, healthy, dead, fileId, n);
    }
    SelectDistinct(healthy, ToSet(TargetIds(cfg, healthy, fileId)) - CoveredIds(records, fileId, dead));
    if needing != [] {
      assert needing[0] in needing;
      SingleId(needing, order[REPLICATION_FACTOR]);
    }
  }

  lemma OnlyTheSuccessor(cfg: Config, records: Records, healthy: seq<EdgeNodeRecord>, dead: NodeId, fileId: FileId,
                         n: EdgeNodeRecord)
    requires NoCollision(cfg, ToSet(Ids(healthy)) + {dead}) && dead !in Ids(healthy)
    requires forall m :: m in Lookup(cfg, RingBeforeCrash(cfg, healthy, dead), fileId, REPLICATION_FACTOR) && m != dead ==>
               m in CoveredIds(records, fileId, dead)
    requires n in NeedingReplication(cfg, records, healthy, dead, fileId)
    ensures var order := Clockwise(RingBeforeCrash(cfg, healthy, dead), cfg.hashFn(fileId));
            dead in Take(order, REPLICATION_FACTOR) && REPLICATION_FACTOR < |order| && n.id == order[REPLICATION_FACTOR]
  {
    TargetsAfterCrash(cfg, healthy, dead, fileId);
    BeforeCrashTakes(cfg, healthy, dead, fileId);
    IdsMember(healthy);
    assert n.id in TargetIds(cfg, healthy, fileId) && n.id != dead;
  }

  lemma BeforeCrashTakes(cfg: Config, healthy: seq<EdgeNodeRecord>, dead: NodeId, fileId: FileId)
    requires NoCollision(cfg, ToSet(Ids(healthy)) + {dead})
    ensures var r := RingBeforeCrash(cfg, healthy, dead);
            Lookup(cfg, r, fileId, REPLICATION_FACTOR) == Take(Clockwise(r, cfg.hashFn(fileId)), REPLICATION_FACTOR)
  {
    Pushed(Ids(healthy), dead);
    FreshRingCanonical(cfg, Ids(healthy) + [dead]);
    LookupTakes(cfg, RingBeforeCrash(cfg, healthy, dead), fileId, REPLICATION_FACTOR);
  }
}
