/** `PlacementService.getPlacement`: a ring built afresh over every registered
    node, the first three nodes of a file, and the healthy ones among them
    nearest first. Distances are a parameter. */
module Placement {
  import opened Sequences
  import opened EdgeNodes
  import opened RingModel
  import opened RingHistory
  import opened RingLookup

  const REPLICATION_FACTOR: nat := 3

  datatype Replica = Replica(edgeId: NodeId, endpoint: string, region: string, distanceKm: int)

  /** What `getNodes(key, count)` returns on a ring. */
  function Lookup(cfg: Config, r: Ring, key: string, count: int): seq<NodeId> {
    Take(Clockwise(r, cfg.hashFn(key)), Wanted(r, count))
  }

  function FreshRing(cfg: Config, ids: seq<NodeId>): Ring {
    RingModel.SyncTopology(cfg, EMPTY_RING, ids)
  }

  function ResponsibleNodes(cfg: Config, allNodes: seq<EdgeNodeRecord>, fileId: string): seq<NodeId> {
    Lookup(cfg, FreshRing(cfg, Ids(allNodes)), fileId, REPLICATION_FACTOR)
  }

  function Distance(allNodes: seq<EdgeNodeRecord>, requester: NodeId, node: EdgeNodeRecord,
                    distance: (EdgeNodeRecord, EdgeNodeRecord) -> int): int {
    var found := Select(allNodes, {requester});
    if found == [] then 0 else distance(found[0], node)
  }

  function ToReplicas(nodes: seq<EdgeNodeRecord>, distanceTo: EdgeNodeRecord -> int): (r: seq<Replica>)
    ensures |r| == |nodes|
    ensures forall i :: 0 <= i < |nodes| ==> r[i].edgeId == nodes[i].id
  {
    seq(|nodes|, i requires 0 <= i < |nodes| =>
      Replica(nodes[i].id, nodes[i].endpointUrl, nodes[i].region, distanceTo(nodes[i])))
  }

  function ReplicaDistance(r: Replica): int {
    r.distanceKm
  }

  function ResponsibleReplicas(cfg: Config, allNodes: seq<EdgeNodeRecord>, fileId: string, requester: NodeId,
                               distance: (EdgeNodeRecord, EdgeNodeRecord) -> int): seq<Replica> {
    SortBy(ToReplicas(OfferedNodes(cfg, allNodes, fileId, requester), n => Distance(allNodes, requester, n, distance)),
           ReplicaDistance)
  }

  /** The healthy responsible nodes other than the requester. */
  function OfferedNodes(cfg: Config, allNodes: seq<EdgeNodeRecord>, fileId: string, requester: NodeId): seq<EdgeNodeRecord> {
    Select(HealthyNodes(allNodes), ToSet(ResponsibleNodes(cfg, allNodes, fileId)) - {requester})
  }

  function EdgeIds(replicas: seq<Replica>): set<NodeId> {
    set r | r in replicas :: r.edgeId
  }

  // ---- canonical rings answer alike ----

  lemma FreshRingCanonical(cfg: Config, ids: seq<NodeId>)
    requires NoCollision(cfg, ToSet(ids))
    ensures Canonical(cfg, FreshRing(cfg, ids))
    ensures ToSet(FreshRing(cfg, ids).physicalNodes) == ToSet(ids)
  {
    assert Tokens(cfg, {}) == {};
    assert ToSet(EMPTY_RING.physicalNodes) + ToSet(ids) == ToSet(ids);
    SyncTopologyCanonical(cfg, EMPTY_RING, ids);
  }

  /** A long-lived ring and a fresh one over the same nodes answer every lookup alike. */
  lemma LookupHistoryIndependent(cfg: Config, a: Ring, b: Ring, key: string, count: int)
    requires Canonical(cfg, a) && Canonical(cfg, b)
    requires ToSet(a.physicalNodes) == ToSet(b.physicalNodes)
    ensures Lookup(cfg, a, key, count) == Lookup(cfg, b, key, count)
  {
    CanonicalUnique(cfg, a, b);
    DistinctSize(a.physicalNodes);
    DistinctSize(b.physicalNodes);
  }

  /** On a canonical ring `getNodes` returns exactly the first `count` of the clockwise order. */
  lemma LookupTakes(cfg: Config, r: Ring, key: string, count: nat)
    requires Canonical(cfg, r)
    ensures Lookup(cfg, r, key, count) == Take(Clockwise(r, cfg.hashFn(key)), count)
  {
    var order := Clockwise(r, cfg.hashFn(key));
    OrderElements(cfg, r, cfg.hashFn(key));
    DistinctSize(order);
    DistinctSize(r.physicalNodes);
    SubsetSize(ToSet(order), ToSet(r.physicalNodes));
  }

  // ---- placement against dispatch ----

  lemma OfferedIds(cfg: Config, allNodes: seq<EdgeNodeRecord>, fileId: string, requester: NodeId,
                   distance: (EdgeNodeRecord, EdgeNodeRecord) -> int)
    ensures EdgeIds(ResponsibleReplicas(cfg, allNodes, fileId, requester, distance)) ==
            ToSet(Restrict(ResponsibleNodes(cfg, allNodes, fileId), HealthyIds(allNodes))) - {requester}
    ensures SortedBy(ResponsibleReplicas(cfg, allNodes, fileId, requester, distance), ReplicaDistance)
  {
    var nodes := OfferedNodes(cfg, allNodes, fileId, requester);
    var replicas := ToReplicas(nodes, n => Distance(allNodes, requester, n, distance));
    SortByCorrect(replicas, ReplicaDistance);
    SortedIds(replicas);
    ReplicaIds(nodes, n => Distance(allNodes, requester, n, distance));
    OfferedNodeIds(cfg, allNodes, fileId, requester, EdgeIds(replicas));
  }

  /** The replica describes the node, with its distance from the requester: the given
      distance to the requester's record, or 0 for a requester nobody registered. */
  ghost predicate Offers(allNodes: seq<EdgeNodeRecord>, requester: NodeId, n: EdgeNodeRecord,
                         distance: (EdgeNodeRecord, EdgeNodeRecord) -> int, replica: Replica)
  {
    && replica.edgeId == n.id && replica.endpoint == n.endpointUrl && replica.region == n.region
    && (requester !in Ids(allNodes) ==> replica.distanceKm == 0)
    && (forall q :: q in allNodes && q.id == requester ==> replica.distanceKm == distance(q, n))
  }

  lemma RequesterFound(allNodes: seq<EdgeNodeRecord>, requester: NodeId, q: EdgeNodeRecord)
    requires Distinct(Ids(allNodes)) && q in allNodes && q.id == requester
    ensures Select(allNodes, {requester}) == [q]
  {
    var found := Select(allNodes, {requester});
    SelectDistinct(allNodes, {requester});
    assert q in found;
    SingleId(found, requester);
  }

  lemma DistanceIs(allNodes: seq<EdgeNodeRecord>, requester: NodeId, n: EdgeNodeRecord,
                   distance: (EdgeNodeRecord, EdgeNodeRecord) -> int)
    requires Distinct(Ids(allNodes))
    ensures requester !in Ids(allNodes) ==> Distance(allNodes, requester, n, distance) == 0
    ensures forall q :: q in allNodes && q.id == requester ==> Distance(allNodes, requester, n, distance) == distance(q, n)
  {
    if requester !in Ids(allNodes) {
      IdsMember(allNodes);
      assert ToSet(Select(allNodes, {requester})) == {};
      ToSetEmpty(Select(allNodes, {requester}));
    }
    forall q | q in allNodes && q.id == requester
      ensures Distance(allNodes, requester, n, distance) == distance(q, n)
    {
      RequesterFound(allNodes, requester, q);
    }
  }

  lemma NearestFirst(replicas: seq<Replica>)
    ensures var offered := SortBy(replicas, ReplicaDistance);
            forall i, j :: 0 <= i < j < |offered| ==> offered[i].distanceKm <= offered[j].distanceKm
  {
    SortByCorrect(replicas, ReplicaDistance);
  }

  /** Each replica offered describes a healthy responsible node, and they come nearest first. */
  lemma OfferedInOrder(cfg: Config, allNodes: seq<EdgeNodeRecord>, fileId: string, requester: NodeId,
                       distance: (EdgeNodeRecord, EdgeNodeRecord) -> int, replica: Replica)
    requires Distinct(Ids(allNodes)) && replica in ResponsibleReplicas(cfg, allNodes, fileId, requester, distance)
    ensures exists n :: n in allNodes && n.status == HEALTHY && Offers(allNodes, requester, n, distance, replica)
    ensures var offered := ResponsibleReplicas(cfg, allNodes, fileId, requester, distance);
            forall i, j :: 0 <= i < j < |offered| ==> offered[i].distanceKm <= offered[j].distanceKm
  {
    var nodes := OfferedNodes(cfg, allNodes, fileId, requester);
    var replicas := ToReplicas(nodes, n => Distance(allNodes, requester, n, distance));
    NearestFirst(replicas);
    SortByElements(replicas, ReplicaDistance);
    assert replica in replicas;
    OfferDescribes(allNodes, requester, nodes, distance, replica);
  }

  lemma OfferDescribes(allNodes: seq<EdgeNodeRecord>, requester: NodeId, nodes: seq<EdgeNodeRecord>,
                       distance: (EdgeNodeRecord, EdgeNodeRecord) -> int, replica: Replica)
    requires Distinct(Ids(allNodes)) && forall n :: n in nodes ==> n in allNodes && n.status == HEALTHY
    requires replica in ToReplicas(nodes, n => Distance(allNodes, requester, n, distance))
    ensures exists n :: n in allNodes && n.status == HEALTHY && Offers(allNodes, requester, n, distance, replica)
  {
    var replicas := ToReplicas(nodes, n => Distance(allNodes, requester, n, distance));
    var i :| 0 <= i < |replicas| && replicas[i] == replica;
    assert nodes[i] in nodes;
    DistanceIs(allNodes, requester, nodes[i], distance);
  }

  lemma SortedIds(replicas: seq<Replica>)
    ensures EdgeIds(SortBy(replicas, ReplicaDistance)) == EdgeIds(replicas)
  {
    SortByElements(replicas, ReplicaDistance);
  }

  lemma OfferedNodeIds(cfg: Config, allNodes: seq<EdgeNodeRecord>, fileId: string, requester: NodeId, ids: set<NodeId>)
    requires forall id :: id in ids <==> exists n :: n in OfferedNodes(cfg, allNodes, fileId, requester) && n.id == id
    ensures ids == ToSet(Restrict(ResponsibleNodes(cfg, allNodes, fileId), HealthyIds(allNodes))) - {requester}
  {
  }

  lemma ReplicaIds(nodes: seq<EdgeNodeRecord>, distanceTo: EdgeNodeRecord -> int)
    ensures forall id :: id in EdgeIds(ToReplicas(nodes, distanceTo)) <==> exists n :: n in nodes && n.id == id
  {
    var rs := ToReplicas(nodes, distanceTo);
    forall n | n in nodes ensures n.id in EdgeIds(rs) {
      var i :| 0 <= i < |nodes| && nodes[i] == n;
      assert rs[i] in rs && rs[i].edgeId == n.id;
    }
    forall id | id in EdgeIds(rs) ensures exists n :: n in nodes && n.id == id {
      var r :| r in rs && r.edgeId == id;
      var i :| 0 <= i < |rs| && rs[i] == r;
      assert nodes[i] in nodes;
    }
  }

  /** The nodes a file is placed on over the full ring, restricted to the healthy
      ones, start the list the healthy-only ring gives; so every replica offered
      is a dispatch target, in whatever way the long-lived ring came about. */
  lemma PlacementAgreesWithDispatch(cfg: Config, allNodes: seq<EdgeNodeRecord>, fileId: string, requester: NodeId,
                                    distance: (EdgeNodeRecord, EdgeNodeRecord) -> int, healthyRing: Ring)
    requires NoCollision(cfg, ToSet(Ids(allNodes)))
    requires Canonical(cfg, healthyRing) && ToSet(healthyRing.physicalNodes) == HealthyIds(allNodes)
    ensures Restrict(ResponsibleNodes(cfg, allNodes, fileId), HealthyIds(allNodes))
            <= Lookup(cfg, healthyRing, fileId, REPLICATION_FACTOR)
    ensures EdgeIds(ResponsibleReplicas(cfg, allNodes, fileId, requester, distance))
            <= ToSet(Lookup(cfg, healthyRing, fileId, REPLICATION_FACTOR))
  {
    var full := FreshRing(cfg, Ids(allNodes));
    FreshRingCanonical(cfg, Ids(allNodes));
    HealthySubset(allNodes);
    LookupTakes(cfg, full, fileId, REPLICATION_FACTOR);
    LookupTakes(cfg, healthyRing, fileId, REPLICATION_FACTOR);
    OrderOfSubset(cfg, full, healthyRing, cfg.hashFn(fileId));
    TakeRestrict(Clockwise(full, cfg.hashFn(fileId)), HealthyIds(allNodes), REPLICATION_FACTOR);
    OfferedIds(cfg, allNodes, fileId, requester, distance);
  }

  /** Placement and dispatch name the same nodes (up to the requester itself) if
      and only if the file's first three nodes on the full ring are all healthy
      or include every healthy node. */
  lemma PlacementEqualsDispatchIff(cfg: Config, allNodes: seq<EdgeNodeRecord>, fileId: string, healthyRing: Ring)
    requires NoCollision(cfg, ToSet(Ids(allNodes)))
    requires cfg.virtualNodes >= 1 && "" !in Ids(allNodes)
    requires Canonical(cfg, healthyRing) && ToSet(healthyRing.physicalNodes) == HealthyIds(allNodes)
    ensures var placed := ResponsibleNodes(cfg, allNodes, fileId);
            ToSet(Restrict(placed, HealthyIds(allNodes))) == ToSet(Lookup(cfg, healthyRing, fileId, REPLICATION_FACTOR))
            <==> ToSet(placed) <= HealthyIds(allNodes) || HealthyIds(allNodes) <= ToSet(placed)
  {
    var full := FreshRing(cfg, Ids(allNodes));
    FreshRingCanonical(cfg, Ids(allNodes));
    HealthySubset(allNodes);
    LookupTakes(cfg, full, fileId, REPLICATION_FACTOR);
    LookupTakes(cfg, healthyRing, fileId, REPLICATION_FACTOR);
    OrderOfSubset(cfg, full, healthyRing, cfg.hashFn(fileId));
    assert "" !in ToSet(full.physicalNodes);
    OrderComplete(cfg, full, cfg.hashFn(fileId));
    TakeRestrictExact(Clockwise(full, cfg.hashFn(fileId)), HealthyIds(allNodes), REPLICATION_FACTOR);
  }

  lemma OrderComplete(cfg: Config, r: Ring, point: nat)
    requires Canonical(cfg, r) && cfg.virtualNodes >= 1 && "" !in r.physicalNodes
    ensures ToSet(Clockwise(r, point)) == ToSet(r.physicalNodes)
  {
    CanonicalOwners(cfg, r);
    LapElements(r.sortedKeys, point);
    OwnersElements(LapFrom(r.sortedKeys, point), r.owner);
    OwnersElements(r.sortedKeys, r.owner);
    assert ToSet(Clockwise(r, point)) == LiveOwners(r);
  }

  lemma TakeRestrictExact(order: seq<NodeId>, keep: set<NodeId>, k: nat)
    requires Distinct(order) && keep <= ToSet(order)
    ensures var first := Take(order, k);
            ToSet(Restrict(first, keep)) == ToSet(Take(Restrict(order, keep), k))
            <==> ToSet(first) <= keep || keep <= ToSet(first)
  {
    var first := Take(order, k);
    if ToSet(first) <= keep {
      TakeAllKept(order, keep, k);
    } else if keep <= ToSet(first) {
      TakeRestrict(order, keep, k);
      assert ToSet(Restrict(first, keep)) == keep;
    } else {
      var stranger :| stranger in first && stranger !in keep;
      var later :| later in keep && later !in first;
      TakeShort(order, keep, k, stranger, later);
    }
  }

  lemma TakeAllKept(order: seq<NodeId>, keep: set<NodeId>, k: nat)
    requires ToSet(Take(order, k)) <= keep
    ensures Restrict(Take(order, k), keep) == Take(Restrict(order, keep), k)
  {
    var first := Take(order, k);
    var rest := order[|first|..];
    assert order == first + rest;
    RestrictAppend(first, rest, keep);
    RestrictAll(first, keep);
    if |order| <= k {
      assert first == order;
    }
  }

  /** A stranger among the first `k` and a wanted node beyond them leave the
      filtered start shorter than the start of the filtered order. */
  lemma TakeShort(order: seq<NodeId>, keep: set<NodeId>, k: nat, stranger: NodeId, later: NodeId)
    requires Distinct(order)
    requires stranger in Take(order, k) && stranger !in keep
    requires later in order && later in keep && later !in Take(order, k)
    ensures ToSet(Restrict(Take(order, k), keep)) != ToSet(Take(Restrict(order, keep), k))
  {
    var first := Take(order, k);
    var part, target := Restrict(first, keep), Take(Restrict(order, keep), k);
    TakeRestrict(order, keep, k);
    RestrictShorter(first, keep, stranger);
    RestrictDistinct(order, keep);
    RestrictDistinct(first, keep);
    assert later in Restrict(order, keep) && later !in part;
    assert |part| < |target|;
    DistinctSize(part);
    DistinctSize(target);
  }

  lemma {:induction false} RestrictShorter(s: seq<NodeId>, keep: set<NodeId>, x: NodeId)
    requires x in s && x !in keep
    ensures |Restrict(s, keep)| < |s|
  {
    if Last(s) in keep {
      assert s == Front(s) + [Last(s)];
      RestrictShorter(Front(s), keep, x);
    }
  }
}
