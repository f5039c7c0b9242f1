/** The consistent-hash ring as a value: what `addNode`, `removeNode` and
    `syncTopology` do to the owner map and the sorted key array, step by step
    and including what they do when two virtual nodes hash alike.
    The hash function is a parameter. */
module RingModel {
  import opened Sequences
  import opened Decimals
  import opened Text

  type NodeId = string

  datatype Config = Config(virtualNodes: nat, hashFn: string -> nat)

  /** `physicalNodes` is a JavaScript `Set`: no duplicates, insertion order. */
  datatype Ring = Ring(owner: map<nat, NodeId>, sortedKeys: seq<nat>, physicalNodes: seq<NodeId>)

  const EMPTY_RING := Ring(map[], [], [])

  function VNodeHash(cfg: Config, id: NodeId, i: nat): nat {
    cfg.hashFn(id + ":vnode:" + Decimal(i))
  }

  /** The hashes of the first `n` virtual nodes of `id`, in creation order. */
  function VNodeHashes(cfg: Config, id: NodeId, n: nat): seq<nat> {
    if n == 0 then [] else VNodeHashes(cfg, id, n - 1) + [VNodeHash(cfg, id, n - 1)]
  }

  /** The owner map after setting the first `n` virtual nodes of `id`, later entries winning. */
  function PlaceVNodes(cfg: Config, owner: map<nat, NodeId>, id: NodeId, n: nat): map<nat, NodeId> {
    if n == 0 then owner else PlaceVNodes(cfg, owner, id, n - 1)[VNodeHash(cfg, id, n - 1) := id]
  }

  function KeyOrder(h: nat): int {
    h
  }

  function AddNode(cfg: Config, r: Ring, id: NodeId): Ring {
    if id in r.physicalNodes then r
    else Ring(PlaceVNodes(cfg, r.owner, id, cfg.virtualNodes),
              SortBy(r.sortedKeys + VNodeHashes(cfg, id, cfg.virtualNodes), KeyOrder),
              r.physicalNodes + [id])
  }

  datatype Swept = Swept(keys: seq<nat>, owner: map<nat, NodeId>)

  /** The `filter` callback of `removeNode`: it deletes owner entries while it
      walks the array, so a second copy of a deleted key is kept. */
  function Sweep(keys: seq<nat>, owner: map<nat, NodeId>, id: NodeId): Swept {
    if keys == [] then Swept([], owner)
    else
      var s := Sweep(Front(keys), owner, id);
      var h := Last(keys);
      if h in s.owner && s.owner[h] == id then Swept(s.keys, s.owner - {h})
      else Swept(s.keys + [h], s.owner)
  }

  function Without(ids: seq<NodeId>, id: NodeId): seq<NodeId> {
    Restrict(ids, ToSet(ids) - {id})
  }

  function RemoveNode(r: Ring, id: NodeId): Ring {
    if id !in r.physicalNodes then r
    else
      var s := Sweep(r.sortedKeys, r.owner, id);
      Ring(s.owner, s.keys, Without(r.physicalNodes, id))
  }

  /** First loop of `syncTopology`: drop the listed nodes that are not wanted. */
  function RemoveStale(r: Ring, ids: seq<NodeId>, wanted: set<NodeId>): Ring {
    if ids == [] then r
    else
      var r' := RemoveStale(r, Front(ids), wanted);
      if Last(ids) in wanted then r' else RemoveNode(r', Last(ids))
  }

  /** Second loop of `syncTopology`: add the listed nodes. */
  function AddAll(cfg: Config, r: Ring, ids: seq<NodeId>): Ring {
    if ids == [] then r else AddNode(cfg, AddAll(cfg, r, Front(ids)), Last(ids))
  }

  function SyncTopology(cfg: Config, r: Ring, ids: seq<NodeId>): Ring {
    AddAll(cfg, RemoveStale(r, r.physicalNodes, ToSet(ids)), ids)
  }

  datatype Op = Add(id: NodeId) | Remove(id: NodeId) | Sync(ids: seq<NodeId>)

  function Apply(cfg: Config, r: Ring, op: Op): Ring {
    match op
    case Add(id) => AddNode(cfg, r, id)
    case Remove(id) => RemoveNode(r, id)
    case Sync(ids) => SyncTopology(cfg, r, ids)
  }

  /** A freshly constructed ring after a whole history of calls. */
  function Run(cfg: Config, ops: seq<Op>): Ring {
    if ops == [] then EMPTY_RING else Apply(cfg, Run(cfg, Front(ops)), Last(ops))
  }

  function Mentioned(op: Op): set<NodeId> {
    match op
    case Add(id) => {id}
    case Remove(id) => {id}
    case Sync(ids) => ToSet(ids)
  }

  ghost predicate Over(ops: seq<Op>, universe: set<NodeId>) {
    forall op :: op in ops ==> Mentioned(op) <= universe
  }

  // ---- the ring a node set determines ----

  function Tokens(cfg: Config, nodes: set<NodeId>): set<nat> {
    set n, i | n in nodes && 0 <= i < cfg.virtualNodes :: VNodeHash(cfg, n, i)
  }

  ghost predicate NoCollision(cfg: Config, nodes: set<NodeId>) {
    forall n, m, i: nat, j: nat | n in nodes && m in nodes && i < cfg.virtualNodes && j < cfg.virtualNodes ::
      VNodeHash(cfg, n, i) == VNodeHash(cfg, m, j) ==> n == m && i == j
  }

  /** `r` holds exactly the virtual nodes of its physical nodes, each once. */
  ghost predicate Canonical(cfg: Config, r: Ring) {
    && Distinct(r.physicalNodes)
    && StrictlyIncreasing(r.sortedKeys)
    && ToSet(r.sortedKeys) == r.owner.Keys == Tokens(cfg, ToSet(r.physicalNodes))
    && (forall n, i: nat :: n in r.physicalNodes && i < cfg.virtualNodes ==>
          VNodeHash(cfg, n, i) in r.owner && r.owner[VNodeHash(cfg, n, i)] == n)
  }

  /** Two canonical rings over the same node set are the same ring. */
  lemma CanonicalUnique(cfg: Config, a: Ring, b: Ring)
    requires Canonical(cfg, a) && Canonical(cfg, b)
    requires ToSet(a.physicalNodes) == ToSet(b.physicalNodes)
    ensures a.owner == b.owner && a.sortedKeys == b.sortedKeys
  {
    IncreasingUnique(a.sortedKeys, b.sortedKeys);
    forall h | h in a.owner ensures a.owner[h] == b.owner[h] {
      var n, i: nat :| n in ToSet(a.physicalNodes) && i < cfg.virtualNodes && VNodeHash(cfg, n, i) == h;
      assert n in a.physicalNodes && n in b.physicalNodes;
    }
  }

  lemma NoCollisionSubset(cfg: Config, a: set<NodeId>, b: set<NodeId>)
    requires NoCollision(cfg, b) && a <= b
    ensures NoCollision(cfg, a)
  {
  }

  lemma VNodeNamesDiffer(n: NodeId, i: nat, m: NodeId, j: nat)
    requires n + ":vnode:" + Decimal(i) == m + ":vnode:" + Decimal(j)
    ensures n == m && i == j
  {
    var a, b, p, q := Decimal(i), Decimal(j), n + ":vnode", m + ":vnode";
    DecimalDigits(i);
    DecimalDigits(j);
    Named(n, a, p);
    Named(m, b, q);
    TailInjective(p, a, q, b);
    assert p[..|n|] == n && q[..|m|] == m;
    DecimalUnique(i, j);
  }

  lemma Named(n: NodeId, digits: string, p: string)
    requires p == n + ":vnode" && AllDigits(digits)
    ensures n + ":vnode:" + digits == p + [':'] + digits && Free(digits, ':')
  {
    assert n + ":vnode:" == p + [':'];
  }

  /** Virtual nodes have names of their own: without a collision of the hash on names
      `<id>:vnode:<i>` the ring has none. */
  lemma NamesDoNotCollide(cfg: Config, nodes: set<NodeId>)
    requires forall n, i: nat, m, j: nat :: n in nodes && m in nodes &&
               (cfg.hashFn(n + ":vnode:" + Decimal(i)) == cfg.hashFn(m + ":vnode:" + Decimal(j)) ==>
                  n + ":vnode:" + Decimal(i) == m + ":vnode:" + Decimal(j))
    ensures NoCollision(cfg, nodes)
  {
    forall n, m, i: nat, j: nat | n in nodes && m in nodes && VNodeHash(cfg, n, i) == VNodeHash(cfg, m, j)
      ensures n == m && i == j
    {
      VNodeNamesDiffer(n, i, m, j);
    }
  }

  // ---- adding ----

  lemma {:induction false} PlacedVNodes(cfg: Config, owner: map<nat, NodeId>, id: NodeId, n: nat)
    ensures var p := PlaceVNodes(cfg, owner, id, n);
            && p.Keys == owner.Keys + ToSet(VNodeHashes(cfg, id, n))
            && (forall h :: h in p ==> p[h] == if h in VNodeHashes(cfg, id, n) then id else owner[h])
    ensures |VNodeHashes(cfg, id, n)| == n
    ensures forall i: nat :: i < n ==> VNodeHashes(cfg, id, n)[i] == VNodeHash(cfg, id, i)
  {
    if n > 0 {
      PlacedVNodes(cfg, owner, id, n - 1);
    }
  }

  lemma TokensOfOne(cfg: Config, id: NodeId)
    ensures ToSet(VNodeHashes(cfg, id, cfg.virtualNodes)) == Tokens(cfg, {id})
  {
    var hs := VNodeHashes(cfg, id, cfg.virtualNodes);
    PlacedVNodes(cfg, map[], id, cfg.virtualNodes);
    forall h ensures h in ToSet(hs) <==> h in Tokens(cfg, {id}) {
      if h in ToSet(hs) {
        var i :| 0 <= i < |hs| && hs[i] == h;
        assert VNodeHash(cfg, id, i) == h;
      }
      if h in Tokens(cfg, {id}) {
        var i: nat :| i < cfg.virtualNodes && VNodeHash(cfg, id, i) == h;
        assert hs[i] == h;
      }
    }
  }

  lemma TokensUnion(cfg: Config, a: set<NodeId>, b: set<NodeId>)
    ensures Tokens(cfg, a + b) == Tokens(cfg, a) + Tokens(cfg, b)
  {
  }

  lemma TokensDisjoint(cfg: Config, a: set<NodeId>, b: set<NodeId>)
    requires NoCollision(cfg, a + b) && a !! b
    ensures Tokens(cfg, a) !! Tokens(cfg, b)
  {
  }

  lemma DistinctConcat(cfg: Config, r: Ring, id: NodeId)
    requires Canonical(cfg, r) && id !in r.physicalNodes
    requires NoCollision(cfg, ToSet(r.physicalNodes) + {id})
    ensures Distinct(r.sortedKeys + VNodeHashes(cfg, id, cfg.virtualNodes))
  {
    var hs := VNodeHashes(cfg, id, cfg.virtualNodes);
    PlacedVNodes(cfg, map[], id, cfg.virtualNodes);
    TokensOfOne(cfg, id);
    TokensDisjoint(cfg, ToSet(r.physicalNodes), {id});
    forall i, j | 0 <= i < |r.sortedKeys| && 0 <= j < |hs| ensures r.sortedKeys[i] != hs[j] {
      assert r.sortedKeys[i] in ToSet(r.sortedKeys) && hs[j] in ToSet(hs);
    }
    forall i, j | 0 <= i < j < |hs| ensures hs[i] != hs[j] {
      assert hs[i] == VNodeHash(cfg, id, i) && hs[j] == VNodeHash(cfg, id, j);
    }
  }

  lemma AddNodeKeys(cfg: Config, r: Ring, id: NodeId)
    requires Canonical(cfg, r) && id !in r.physicalNodes
    requires NoCollision(cfg, ToSet(r.physicalNodes) + {id})
    ensures StrictlyIncreasing(AddNode(cfg, r, id).sortedKeys)
    ensures ToSet(AddNode(cfg, r, id).sortedKeys) == Tokens(cfg, ToSet(r.physicalNodes) + {id})
  {
    var pushed := r.sortedKeys + VNodeHashes(cfg, id, cfg.virtualNodes);
    DistinctConcat(cfg, r, id);
    SortByCorrect(pushed, KeyOrder);
    SortByElements(pushed, KeyOrder);
    SortedKeysIncrease(SortBy(pushed, KeyOrder));
    TokensOfOne(cfg, id);
    TokensUnion(cfg, ToSet(r.physicalNodes), {id});
    assert ToSet(pushed) == ToSet(r.sortedKeys) + ToSet(VNodeHashes(cfg, id, cfg.virtualNodes));
  }

  lemma AddNodeOwners(cfg: Config, r: Ring, id: NodeId)
    requires Canonical(cfg, r) && id !in r.physicalNodes
    requires NoCollision(cfg, ToSet(r.physicalNodes) + {id})
    ensures AddNode(cfg, r, id).owner.Keys == Tokens(cfg, ToSet(r.physicalNodes) + {id})
    ensures forall n, i: nat :: n in ToSet(r.physicalNodes) + {id} && i < cfg.virtualNodes ==>
              VNodeHash(cfg, n, i) in AddNode(cfg, r, id).owner &&
              AddNode(cfg, r, id).owner[VNodeHash(cfg, n, i)] == n
  {
    var hs := VNodeHashes(cfg, id, cfg.virtualNodes);
    PlacedVNodes(cfg, r.owner, id, cfg.virtualNodes);
    TokensOfOne(cfg, id);
    TokensUnion(cfg, ToSet(r.physicalNodes), {id});
    TokensDisjoint(cfg, ToSet(r.physicalNodes), {id});
    forall n, i: nat | n in ToSet(r.physicalNodes) + {id} && i < cfg.virtualNodes
      ensures VNodeHash(cfg, n, i) in AddNode(cfg, r, id).owner
      ensures AddNode(cfg, r, id).owner[VNodeHash(cfg, n, i)] == n
    {
      var h := VNodeHash(cfg, n, i);
      if n == id {
        assert hs[i] == h;
      } else {
        assert h in Tokens(cfg, ToSet(r.physicalNodes));
        assert h !in ToSet(hs);
      }
    }
  }

  lemma AddNodeCanonical(cfg: Config, r: Ring, id: NodeId)
    requires Canonical(cfg, r) && NoCollision(cfg, ToSet(r.physicalNodes) + {id})
    ensures Canonical(cfg, AddNode(cfg, r, id))
    ensures ToSet(AddNode(cfg, r, id).physicalNodes) == ToSet(r.physicalNodes) + {id}
  {
    if id !in r.physicalNodes {
      AddNodeKeys(cfg, r, id);
      AddNodeOwners(cfg, r, id);
      assert ToSet(r.physicalNodes + [id]) == ToSet(r.physicalNodes) + {id};
    } else {
      assert ToSet(r.physicalNodes) + {id} == ToSet(r.physicalNodes);
    }
  }

  lemma SortedKeysIncrease(s: seq<nat>)
    requires SortedBy(s, KeyOrder) && Distinct(s)
    ensures StrictlyIncreasing(s)
  {
    forall i, j | 0 <= i < j < |s| ensures s[i] < s[j] {
      assert KeyOrder(s[i]) <= KeyOrder(s[j]);
    }
  }

  // ---- removing ----

  /** Over a duplicate-free key array the sweep is a plain filter. */
  lemma {:induction false} SweepFilters(keys: seq<nat>, owner: map<nat, NodeId>, id: NodeId)
    requires Distinct(keys) && ToSet(keys) <= owner.Keys
    ensures Sweep(keys, owner, id).owner == owner - Owned(keys, owner, id)
    ensures Sweep(keys, owner, id).keys == Restrict(keys, owner.Keys - Owned(keys, owner, id))
  {
    if keys != [] {
      var front, h := Front(keys), Last(keys);
      SplitLast(keys);
      SweepFilters(front, owner, id);
      var dead0, dead := Owned(front, owner, id), Owned(keys, owner, id);
      assert dead == if owner[h] == id then dead0 + {h} else dead0;
      RestrictSame(front, owner.Keys - dead0, owner.Keys - dead);
    }
  }

  function Owned(keys: seq<nat>, owner: map<nat, NodeId>, id: NodeId): set<nat> {
    set h | h in keys && h in owner && owner[h] == id
  }

  lemma SplitLast(keys: seq<nat>)
    requires Distinct(keys) && keys != []
    ensures keys == Front(keys) + [Last(keys)]
    ensures Last(keys) in ToSet(keys) && Last(keys) !in Front(keys)
    ensures ToSet(Front(keys)) <= ToSet(keys)
  {
  }

  lemma RemoveNodeCanonical(cfg: Config, r: Ring, id: NodeId)
    requires Canonical(cfg, r) && NoCollision(cfg, ToSet(r.physicalNodes))
    ensures Canonical(cfg, RemoveNode(r, id))
    ensures ToSet(RemoveNode(r, id).physicalNodes) == ToSet(r.physicalNodes) - {id}
  {
    if id in r.physicalNodes {
      var r' := RemoveNode(r, id);
      var all, rest := ToSet(r.physicalNodes), ToSet(r.physicalNodes) - {id};
      var dead := Owned(r.sortedKeys, r.owner, id);
      SweepFilters(r.sortedKeys, r.owner, id);
      RestrictDistinct(r.physicalNodes, rest);
      assert ToSet(r'.physicalNodes) == rest;
      RestrictIncreasing(r.sortedKeys, r.owner.Keys - dead);
      assert all == rest + {id};
      TokensUnion(cfg, rest, {id});
      TokensDisjoint(cfg, rest, {id});
      OwnedTokens(cfg, r, id);
      assert dead == Tokens(cfg, {id});
      assert r'.owner.Keys == Tokens(cfg, rest);
      assert ToSet(r'.sortedKeys) == Tokens(cfg, rest);
      forall n, i: nat | n in r'.physicalNodes && i < cfg.virtualNodes
        ensures VNodeHash(cfg, n, i) in r'.owner && r'.owner[VNodeHash(cfg, n, i)] == n
      {
        assert n in rest;
        assert VNodeHash(cfg, n, i) in Tokens(cfg, rest);
      }
    } else {
      assert ToSet(r.physicalNodes) - {id} == ToSet(r.physicalNodes);
    }
  }

  lemma OwnedTokens(cfg: Config, r: Ring, id: NodeId)
    requires Canonical(cfg, r) && id in r.physicalNodes
    ensures forall h :: h in r.sortedKeys && r.owner[h] == id <==> h in Tokens(cfg, {id})
  {
    forall h ensures h in r.sortedKeys && r.owner[h] == id <==> h in Tokens(cfg, {id}) {
      if h in Tokens(cfg, {id}) {
        var i: nat :| i < cfg.virtualNodes && VNodeHash(cfg, id, i) == h;
        assert h in Tokens(cfg, ToSet(r.physicalNodes));
        assert h in ToSet(r.sortedKeys);
      }
      if h in r.sortedKeys && r.owner[h] == id {
        assert h in ToSet(r.sortedKeys);
        var n, i: nat :| n in ToSet(r.physicalNodes) && i < cfg.virtualNodes && VNodeHash(cfg, n, i) == h;
        assert n == id;
      }
    }
  }
}
