/** What a ring remembers of its past: nothing but its node set, exactly when
    no two virtual nodes of the nodes involved hash alike. */
module RingHistory {
  import opened Sequences
  import opened RingModel

  lemma {:induction false} RemoveStaleCanonical(cfg: Config, r: Ring, ids: seq<NodeId>, wanted: set<NodeId>)
    requires Canonical(cfg, r) && NoCollision(cfg, ToSet(r.physicalNodes))
    ensures Canonical(cfg, RemoveStale(r, ids, wanted))
    ensures ToSet(RemoveStale(r, ids, wanted).physicalNodes) == ToSet(r.physicalNodes) - (ToSet(ids) - wanted)
  {
    if ids != [] {
      RemoveStaleCanonical(cfg, r, Front(ids), wanted);
      var r' := RemoveStale(r, Front(ids), wanted);
      assert ids == Front(ids) + [Last(ids)];
      assert ToSet(ids) == ToSet(Front(ids)) + {Last(ids)};
      NoCollisionSubset(cfg, ToSet(r'.physicalNodes), ToSet(r.physicalNodes));
      RemoveNodeCanonical(cfg, r', Last(ids));
    }
  }

  lemma {:induction false} AddAllCanonical(cfg: Config, r: Ring, ids: seq<NodeId>)
    requires Canonical(cfg, r) && NoCollision(cfg, ToSet(r.physicalNodes) + ToSet(ids))
    ensures Canonical(cfg, AddAll(cfg, r, ids))
    ensures ToSet(AddAll(cfg, r, ids).physicalNodes) == ToSet(r.physicalNodes) + ToSet(ids)
  {
    if ids != [] {
      var all := ToSet(r.physicalNodes) + ToSet(ids);
      assert ids == Front(ids) + [Last(ids)];
      assert ToSet(ids) == ToSet(Front(ids)) + {Last(ids)};
      NoCollisionSubset(cfg, ToSet(r.physicalNodes) + ToSet(Front(ids)), all);
      AddAllCanonical(cfg, r, Front(ids));
      assert ToSet(r.physicalNodes) + ToSet(Front(ids)) + {Last(ids)} == all;
      AddNodeCanonical(cfg, AddAll(cfg, r, Front(ids)), Last(ids));
    }
  }

  /** `syncTopology` leaves exactly the listed nodes, whatever was there before. */
  lemma SyncTopologyCanonical(cfg: Config, r: Ring, ids: seq<NodeId>)
    requires Canonical(cfg, r) && NoCollision(cfg, ToSet(r.physicalNodes) + ToSet(ids))
    ensures Canonical(cfg, SyncTopology(cfg, r, ids))
    ensures ToSet(SyncTopology(cfg, r, ids).physicalNodes) == ToSet(ids)
  {
    var all := ToSet(r.physicalNodes) + ToSet(ids);
    NoCollisionSubset(cfg, ToSet(r.physicalNodes), all);
    RemoveStaleCanonical(cfg, r, r.physicalNodes, ToSet(ids));
    var kept := RemoveStale(r, r.physicalNodes, ToSet(ids));
    NoCollisionSubset(cfg, ToSet(kept.physicalNodes) + ToSet(ids), all);
    AddAllCanonical(cfg, kept, ids);
  }

  lemma {:induction false} RunCanonical(cfg: Config, ops: seq<Op>, universe: set<NodeId>)
    requires Over(ops, universe) && NoCollision(cfg, universe)
    ensures Canonical(cfg, Run(cfg, ops)) && ToSet(Run(cfg, ops).physicalNodes) <= universe
  {
    if ops == [] {
      assert Tokens(cfg, {}) == {};
    } else {
      assert Over(Front(ops), universe);
      RunCanonical(cfg, Front(ops), universe);
      var r, op := Run(cfg, Front(ops)), Last(ops);
      assert Mentioned(op) <= universe;
      NoCollisionSubset(cfg, ToSet(r.physicalNodes), universe);
      NoCollisionSubset(cfg, ToSet(r.physicalNodes) + Mentioned(op), universe);
      match op
      case Add(id) => AddNodeCanonical(cfg, r, id);
      case Remove(id) => RemoveNodeCanonical(cfg, r, id);
      case Sync(ids) => SyncTopologyCanonical(cfg, r, ids);
    }
  }

  ghost predicate SameRing(a: Ring, b: Ring) {
    a.owner == b.owner && a.sortedKeys == b.sortedKeys
  }

  /** Histories over `universe` that end in the same node set end in the same ring. */
  ghost predicate HistoryIndependent(cfg: Config, universe: set<NodeId>) {
    forall p, q: seq<Op> |
      Over(p, universe) && Over(q, universe) &&
      ToSet(Run(cfg, p).physicalNodes) == ToSet(Run(cfg, q).physicalNodes) ::
      SameRing(Run(cfg, p), Run(cfg, q))
  }

  // ---- what a collision does ----

  /** Two nodes sharing a hash: the one added last owns it. */
  lemma SharedHashKeepsOrder(cfg: Config, n: NodeId, m: NodeId, i: nat, j: nat)
    requires n != m && i < cfg.virtualNodes && j < cfg.virtualNodes
    requires VNodeHash(cfg, n, i) == VNodeHash(cfg, m, j)
    ensures !SameRing(Run(cfg, [Add(n), Add(m)]), Run(cfg, [Add(m), Add(n)]))
    ensures ToSet(Run(cfg, [Add(n), Add(m)]).physicalNodes) == ToSet(Run(cfg, [Add(m), Add(n)]).physicalNodes)
  {
    AddedLastOwns(cfg, n, m, j);
    AddedLastOwns(cfg, m, n, i);
  }

  lemma AddedLastOwns(cfg: Config, n: NodeId, m: NodeId, j: nat)
    requires n != m && j < cfg.virtualNodes
    ensures var r := Run(cfg, [Add(n), Add(m)]);
            && VNodeHash(cfg, m, j) in r.owner && r.owner[VNodeHash(cfg, m, j)] == m
            && r.physicalNodes == [n, m]
  {
    assert Front([Add(n), Add(m)]) == [Add(n)] && Front([Add(n)]) == [];
    var r := AddNode(cfg, EMPTY_RING, n);
    assert Run(cfg, [Add(n)]) == r && r.physicalNodes == [n];
    PlacedVNodes(cfg, r.owner, m, cfg.virtualNodes);
    assert VNodeHashes(cfg, m, cfg.virtualNodes)[j] == VNodeHash(cfg, m, j);
  }

  /** Every sweep drops one key for each owner entry it deletes, never more. */
  lemma {:induction false} SweepCounts(keys: seq<nat>, owner: map<nat, NodeId>, id: NodeId)
    ensures |Sweep(keys, owner, id).keys| + |owner| == |keys| + |Sweep(keys, owner, id).owner|
  {
    if keys != [] {
      SweepCounts(Front(keys), owner, id);
      var s := Sweep(Front(keys), owner, id);
      var h := Last(keys);
      if h in s.owner {
        assert s.owner.Keys == (s.owner - {h}).Keys + {h};
        assert |s.owner.Keys| == |s.owner| && |(s.owner - {h}).Keys| == |s.owner - {h}|;
      }
    }
  }

  lemma {:induction false} SetNoLargerThanSeq(s: seq<nat>)
    ensures |ToSet(s)| <= |s|
    ensures |ToSet(s)| == |s| ==> Distinct(s)
  {
    if s != [] {
      SetNoLargerThanSeq(Front(s));
      assert s == Front(s) + [Last(s)];
      assert ToSet(s) == ToSet(Front(s)) + {Last(s)};
      if Last(s) in ToSet(Front(s)) {
        assert ToSet(s) == ToSet(Front(s));
      }
    }
  }

  lemma RepeatedHashRepeatsKey(cfg: Config, n: NodeId, i: nat, j: nat)
    requires i < j < cfg.virtualNodes && VNodeHash(cfg, n, i) == VNodeHash(cfg, n, j)
    ensures var r := AddNode(cfg, EMPTY_RING, n);
            |r.owner| < |r.sortedKeys| && r.physicalNodes == [n]
  {
    var hs := VNodeHashes(cfg, n, cfg.virtualNodes);
    var r := AddNode(cfg, EMPTY_RING, n);
    PlacedVNodes(cfg, map[], n, cfg.virtualNodes);
    assert hs[i] == hs[j];
    SetNoLargerThanSeq(hs);
    assert r.owner.Keys == ToSet(hs);
    assert |r.owner| == |r.owner.Keys| < |hs|;
    SortByElements(EMPTY_RING.sortedKeys + hs, KeyOrder);
  }

  /** One node whose own virtual nodes collide leaves an orphan key when removed. */
  lemma RepeatedHashLeavesOrphan(cfg: Config, n: NodeId, i: nat, j: nat)
    requires i < j < cfg.virtualNodes && VNodeHash(cfg, n, i) == VNodeHash(cfg, n, j)
    ensures !SameRing(Run(cfg, [Add(n), Remove(n)]), Run(cfg, []))
    ensures ToSet(Run(cfg, [Add(n), Remove(n)]).physicalNodes) == ToSet(Run(cfg, []).physicalNodes)
  {
    assert Front([Add(n), Remove(n)]) == [Add(n)] && Front([Add(n)]) == [];
    var r := AddNode(cfg, EMPTY_RING, n);
    assert Run(cfg, [Add(n)]) == r;
    RepeatedHashRepeatsKey(cfg, n, i, j);
    SweepCounts(r.sortedKeys, r.owner, n);
    assert RemoveNode(r, n).sortedKeys != [];
  }

  /** The ring is a function of its node set if and only if no virtual-node
      hashes collide among the nodes it may hold. */
  lemma HistoryIndependence(cfg: Config, universe: set<NodeId>)
    ensures NoCollision(cfg, universe) <==> HistoryIndependent(cfg, universe)
  {
    if NoCollision(cfg, universe) {
      forall p, q: seq<Op> |
        Over(p, universe) && Over(q, universe) &&
        ToSet(Run(cfg, p).physicalNodes) == ToSet(Run(cfg, q).physicalNodes)
        ensures SameRing(Run(cfg, p), Run(cfg, q))
      {
        RunCanonical(cfg, p, universe);
        RunCanonical(cfg, q, universe);
        CanonicalUnique(cfg, Run(cfg, p), Run(cfg, q));
      }
    } else {
      CollisionBreaksIndependence(cfg, universe);
    }
  }

  lemma CollisionBreaksIndependence(cfg: Config, universe: set<NodeId>)
    requires !NoCollision(cfg, universe)
    ensures !HistoryIndependent(cfg, universe)
  {
    var n, m, i: nat, j: nat :| n in universe && m in universe && i < cfg.virtualNodes && j < cfg.virtualNodes &&
      VNodeHash(cfg, n, i) == VNodeHash(cfg, m, j) && !(n == m && i == j);
    if n != m {
      SharedHashBreaks(cfg, universe, n, m, i, j);
    } else if i < j {
      RepeatedHashBreaks(cfg, universe, n, i, j);
    } else {
      RepeatedHashBreaks(cfg, universe, n, j, i);
    }
  }

  lemma BrokenBy(cfg: Config, universe: set<NodeId>, p: seq<Op>, q: seq<Op>)
    requires Over(p, universe) && Over(q, universe)
    requires ToSet(Run(cfg, p).physicalNodes) == ToSet(Run(cfg, q).physicalNodes)
    requires !SameRing(Run(cfg, p), Run(cfg, q))
    ensures !HistoryIndependent(cfg, universe)
  {
  }

  lemma SharedHashBreaks(cfg: Config, universe: set<NodeId>, n: NodeId, m: NodeId, i: nat, j: nat)
    requires n in universe && m in universe && n != m && i < cfg.virtualNodes && j < cfg.virtualNodes
    requires VNodeHash(cfg, n, i) == VNodeHash(cfg, m, j)
    ensures !HistoryIndependent(cfg, universe)
  {
    SharedHashKeepsOrder(cfg, n, m, i, j);
    BrokenBy(cfg, universe, [Add(n), Add(m)], [Add(m), Add(n)]);
  }

  lemma RepeatedHashBreaks(cfg: Config, universe: set<NodeId>, n: NodeId, i: nat, j: nat)
    requires n in universe && i < j < cfg.virtualNodes && VNodeHash(cfg, n, i) == VNodeHash(cfg, n, j)
    ensures !HistoryIndependent(cfg, universe)
  {
    RepeatedHashLeavesOrphan(cfg, n, i, j);
    BrokenBy(cfg, universe, [Add(n), Remove(n)], []);
  }
}
