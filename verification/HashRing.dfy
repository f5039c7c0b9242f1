/** The `HashRing` object: three fields updated in place, a binary search and a
    wrap-around walk, each method proved against the value model. */
module HashRing {
  import opened Sequences
  import opened RingModel
  import opened RingHistory
  import opened RingLookup

  lemma {:induction false} SweepSorted(keys: seq<nat>, owner: map<nat, NodeId>, id: NodeId)
    requires SortedBy(keys, KeyOrder)
    ensures SortedBy(Sweep(keys, owner, id).keys, KeyOrder)
    ensures forall k :: k in Sweep(keys, owner, id).keys ==> k in keys
  {
    if keys != [] {
      SweepSorted(Front(keys), owner, id);
      assert keys == Front(keys) + [Last(keys)];
      var kept := Sweep(Front(keys), owner, id).keys;
      forall i | 0 <= i < |kept| ensures KeyOrder(kept[i]) <= KeyOrder(Last(keys)) {
        assert kept[i] in Front(keys);
      }
    }
  }

  class HashRing {
    const cfg: Config
    var ring: map<nat, NodeId>
    var sortedKeys: seq<nat>
    var physicalNodes: seq<NodeId>

    ghost function Model(): Ring
      reads this
    {
      Ring(ring, sortedKeys, physicalNodes)
    }

    /** What every call keeps, collisions or not. */
    ghost predicate Valid()
      reads this
    {
      SortedBy(sortedKeys, KeyOrder)
    }

    constructor (virtualNodes: nat, hashFn: string -> nat)
      ensures cfg == Config(virtualNodes, hashFn)
      ensures Valid() && Model() == EMPTY_RING
    {
      cfg := Config(virtualNodes, hashFn);
      ring, sortedKeys, physicalNodes := map[], [], [];
    }

    method AddNode(id: NodeId)
      requires Valid()
      modifies this
      ensures Valid() && Model() == RingModel.AddNode(cfg, old(Model()), id)
    {
      if id in physicalNodes {
        return;
      }
      physicalNodes := physicalNodes + [id];
      var i := 0;
      while i < cfg.virtualNodes
        invariant i <= cfg.virtualNodes
        invariant ring == PlaceVNodes(cfg, old(ring), id, i)
        invariant sortedKeys == old(sortedKeys) + VNodeHashes(cfg, id, i)
        invariant physicalNodes == old(physicalNodes) + [id]
      {
        var hash := VNodeHash(cfg, id, i);
        ring := ring[hash := id];
        sortedKeys := sortedKeys + [hash];
        i := i + 1;
      }
      SortByCorrect(sortedKeys, KeyOrder);
      sortedKeys := SortBy(sortedKeys, KeyOrder);
    }

    method RemoveNode(id: NodeId)
      requires Valid()
      modifies this
      ensures Valid() && Model() == RingModel.RemoveNode(old(Model()), id)
    {
      if id !in physicalNodes {
        return;
      }
      physicalNodes := Without(physicalNodes, id);
      var kept: seq<nat>, i := [], 0;
      while i < |sortedKeys|
        invariant i <= |sortedKeys| && sortedKeys == old(sortedKeys)
        invariant Swept(kept, ring) == Sweep(sortedKeys[..i], old(ring), id)
        invariant physicalNodes == Without(old(physicalNodes), id)
      {
        var hash := sortedKeys[i];
        assert Front(sortedKeys[..i + 1]) == sortedKeys[..i];
        if hash in ring && ring[hash] == id {
          ring := ring - {hash};
        } else {
          kept := kept + [hash];
        }
        i := i + 1;
      }
      assert sortedKeys[..i] == sortedKeys;
      SweepSorted(sortedKeys, old(ring), id);
      sortedKeys := kept;
    }

    /** A JavaScript `Set` may lose the element being visited; the loop still
        visits each of the nodes it started with once. */
    method RemoveUnlisted(ids: seq<NodeId>)
      requires Valid()
      modifies this
      ensures Valid() && Model() == RemoveStale(old(Model()), old(physicalNodes), ToSet(ids))
    {
      var current, i := physicalNodes, 0;
      while i < |current|
        invariant i <= |current| && Valid()
        invariant Model() == RemoveStale(old(Model()), current[..i], ToSet(ids))
      {
        TakeOneMore(current, i);
        if current[i] !in ids {
          RemoveNode(current[i]);
        }
        i := i + 1;
      }
      assert current[..i] == current;
    }

    method AddMissing(ids: seq<NodeId>)
      requires Valid()
      modifies this
      ensures Valid() && Model() == AddAll(cfg, old(Model()), ids)
    {
      var i := 0;
      while i < |ids|
        invariant i <= |ids| && Valid()
        invariant Model() == AddAll(cfg, old(Model()), ids[..i])
      {
        TakeOneMore(ids, i);
        if ids[i] !in physicalNodes {
          AddNode(ids[i]);
        }
        i := i + 1;
      }
      assert ids[..i] == ids;
    }

    method SyncTopology(ids: seq<NodeId>)
      requires Valid()
      modifies this
      ensures Valid() && Model() == RingModel.SyncTopology(cfg, old(Model()), ids)
    {
      RemoveUnlisted(ids);
      AddMissing(ids);
    }

    /** The first index whose key is at least `target`, or 0 when every key is smaller. */
    method BinarySearch(target: nat) returns (idx: nat)
      requires Valid()
      ensures sortedKeys == [] ==> idx == 0
      ensures sortedKeys != [] ==> idx < |sortedKeys|
      ensures || (forall i :: 0 <= i < |sortedKeys| ==> (sortedKeys[i] >= target <==> i >= idx))
              || (idx == 0 && forall i :: 0 <= i < |sortedKeys| ==> sortedKeys[i] < target)
    {
      var low, high := 0, |sortedKeys| - 1;
      if |sortedKeys| == 0 {
        return 0;
      }
      if target > sortedKeys[high] {
        AllBelow(sortedKeys, target);
        return 0;
      }
      while low <= high
        invariant 0 <= low <= high + 1 <= |sortedKeys|
        invariant low < |sortedKeys|
        invariant forall i :: 0 <= i < low ==> sortedKeys[i] < target
        invariant forall i :: high < i < |sortedKeys| ==> sortedKeys[i] >= target
        invariant sortedKeys[|sortedKeys| - 1] >= target
        decreases high - low
      {
        var mid := (low + high) / 2;
        if sortedKeys[mid] >= target {
          AtLeastAfter(sortedKeys, mid, target);
          high := mid - 1;
        } else {
          BelowBefore(sortedKeys, mid, target);
          low := mid + 1;
        }
      }
      return low;
    }

    /** What the walk does at one key. */
    method Visit(found: seq<NodeId>, hash: nat) returns (result: seq<NodeId>)
      ensures result == Extend(Model(), found, hash)
    {
      result := found;
      if hash in ring && ring[hash] != "" {
        if ring[hash] !in result {
          result := result + [ring[hash]];
        }
      }
    }

    /** The walk from index `start` until `wanted` nodes are found. */
    method Walk(start: nat, wanted: nat, ghost point: nat) returns (result: seq<NodeId>)
      requires Valid() && start < |sortedKeys| && StartsAt(sortedKeys, start, point)
      requires wanted <= |LiveOwners(Model())|
      ensures |result| == wanted && result <= Clockwise(Model(), point) && Distinct(result)
    {
      ghost var m := Model();
      var idx: nat := start;
      result := [];
      ghost var n: nat := 0;
      while |result| < wanted
        invariant Model() == m
        invariant |result| <= wanted && WalkAt(m, start, n, idx, result)
        decreases |sortedKeys| - n
      {
        WalkShort(m, start, n, idx, result, point);
        WalkStep(m, start, n, idx, result);
        result := Visit(result, sortedKeys[idx]);
        idx := NextIndex(idx, |sortedKeys|);
        n := n + 1;
      }
      WalkDone(m, start, n, idx, result, point);
    }

    /** The first `count` distinct nodes clockwise of the key, fewer when the ring
        has fewer. The walk ends exactly under this precondition (`WalkTerminatesIff`),
        which a collision-free ring with at least one virtual node per node always meets. */
    method GetNodes(key: string, count: int) returns (result: seq<NodeId>)
      requires Valid()
      requires Wanted(Model(), count) <= |LiveOwners(Model())|
      ensures result == Take(Clockwise(Model(), cfg.hashFn(key)), Wanted(Model(), count))
      ensures |result| == if Wanted(Model(), count) < 0 then 0 else Wanted(Model(), count)
      ensures Distinct(result)
    {
      if |physicalNodes| == 0 {
        return [];
      }
      var keyHash := cfg.hashFn(key);
      var start := BinarySearch(keyHash);
      var maxNodes := Min(count, |physicalNodes|);
      if maxNodes <= 0 {
        return [];
      }
      LiveKeys(Model());
      result := Walk(start, maxNodes, keyHash);
    }
  }

  function NextIndex(idx: nat, length: nat): nat
    requires length > 0
  {
    (idx + 1) % length
  }

  function Extend(r: Ring, result: seq<NodeId>, hash: nat): seq<NodeId> {
    if hash in r.owner && r.owner[hash] != "" && r.owner[hash] !in result then result + [r.owner[hash]] else result
  }

  /** The walk still lacks a node, so it has not gone round. */
  lemma WalkShort(r: Ring, start: nat, n: nat, idx: nat, result: seq<NodeId>, point: nat)
    requires WalkAt(r, start, n, idx, result) && StartsAt(r.sortedKeys, start, point)
    requires |result| < |LiveOwners(r)|
    ensures n < |r.sortedKeys|
  {
    FullLap(r, start, point);
  }

  lemma WalkDone(r: Ring, start: nat, n: nat, idx: nat, result: seq<NodeId>, point: nat)
    requires WalkAt(r, start, n, idx, result) && StartsAt(r.sortedKeys, start, point)
    ensures result <= Clockwise(r, point) && Distinct(result)
  {
    FullLap(r, start, point);
    CollectedGrows(r, start, n, |r.sortedKeys|);
  }

  /** The walk's state after `n` iterations. */
  ghost predicate WalkAt(r: Ring, start: nat, n: nat, idx: nat, result: seq<NodeId>) {
    && r.sortedKeys != [] && start < |r.sortedKeys| && idx < |r.sortedKeys|
    && n <= |r.sortedKeys|
    && (idx == start + n || idx + |r.sortedKeys| == start + n)
    && result == Collected(r, start, n)
  }

  lemma WalkStep(r: Ring, start: nat, n: nat, idx: nat, result: seq<NodeId>)
    requires WalkAt(r, start, n, idx, result) && n < |r.sortedKeys|
    ensures WalkAt(r, start, n + 1, NextIndex(idx, |r.sortedKeys|), Extend(r, result, r.sortedKeys[idx]))
    ensures |result| <= |Extend(r, result, r.sortedKeys[idx])| <= |result| + 1
  {
    NextWraps(start, n, idx, |r.sortedKeys|);
    CollectedStep(r, start, n, idx);
  }

  lemma NextWraps(start: nat, n: nat, idx: nat, length: nat)
    requires start < length && n < length && idx < length
    requires idx == start + n || idx + length == start + n
    ensures idx == (start + n) % length
    ensures var next := NextIndex(idx, length);
            next < length && (next == start + n + 1 || next + length == start + n + 1)
  {
    WrapIndex(start + n, length);
    WrapIndex(idx + 1, length);
  }

  lemma AllBelow(keys: seq<nat>, target: nat)
    requires SortedBy(keys, KeyOrder) && keys != [] && target > keys[|keys| - 1]
    ensures StartsAt(keys, 0, target)
  {
    forall i | 0 <= i < |keys| ensures keys[i] < target {
      assert i < |keys| - 1 ==> KeyOrder(keys[i]) <= KeyOrder(keys[|keys| - 1]);
    }
    assert Splits(keys, |keys|, target);
  }

  lemma AtLeastAfter(keys: seq<nat>, mid: nat, target: nat)
    requires SortedBy(keys, KeyOrder) && mid < |keys| && keys[mid] >= target
    ensures forall i :: mid <= i < |keys| ==> keys[i] >= target
  {
    forall i | mid < i < |keys| ensures keys[i] >= target {
      assert KeyOrder(keys[mid]) <= KeyOrder(keys[i]);
    }
  }

  lemma BelowBefore(keys: seq<nat>, mid: nat, target: nat)
    requires SortedBy(keys, KeyOrder) && mid < |keys| && keys[mid] < target
    ensures forall i :: 0 <= i <= mid ==> keys[i] < target
  {
    forall i | 0 <= i < mid ensures keys[i] < target {
      assert KeyOrder(keys[i]) <= KeyOrder(keys[mid]);
    }
  }

  lemma LiveKeys(r: Ring)
    requires |LiveOwners(r)| > 0
    ensures r.sortedKeys != []
  {
    assert r.sortedKeys == [] ==> LiveOwners(r) == {};
  }

  lemma CollectedStep(r: Ring, start: nat, n: nat, idx: nat)
    requires idx < |r.sortedKeys| && idx == (start + n) % |r.sortedKeys|
    ensures Collected(r, start, n + 1) == Extend(r, Collected(r, start, n), r.sortedKeys[idx])
  {
    VisitedPush(r.sortedKeys, start, n, idx);
    VisitOneMore(r, Visited(r.sortedKeys, start, n), r.sortedKeys[idx]);
  }

  lemma VisitedPush(keys: seq<nat>, start: nat, n: nat, idx: nat)
    requires idx < |keys| && idx == (start + n) % |keys|
    ensures Visited(keys, start, n + 1) == Visited(keys, start, n) + [keys[idx]]
  {
  }

  lemma VisitOneMore(r: Ring, v: seq<nat>, h: nat)
    ensures Dedup(Owners(v + [h], r.owner)) == Extend(r, Dedup(Owners(v, r.owner)), h)
  {
    Pushed(v, h);
    if h in r.owner && r.owner[h] != "" {
      Pushed(Owners(v, r.owner), r.owner[h]);
    }
  }
}
