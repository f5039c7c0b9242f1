/** The clockwise order of a ring from a point, and how it changes when nodes
    come and go. The order is defined without the array walk; `HashRing.GetNodes`
    is proved to produce its prefixes. */
module RingLookup {
  import opened Sequences
  import opened RingModel
  import opened RingHistory

  /** The owners met along `keys`; a key without an owner, or whose owner is the
      empty string, is passed over, as the truthiness test does. */
  function Owners(keys: seq<nat>, owner: map<nat, NodeId>): (r: seq<NodeId>)
    ensures forall n :: n in r ==> n != ""
  {
    if keys == [] then []
    else
      var r := Owners(Front(keys), owner);
      var h := Last(keys);
      if h in owner && owner[h] != "" then r + [owner[h]] else r
  }

  function AtOrAfter(keys: seq<nat>, point: nat): set<nat> {
    set k: nat | k in keys && k >= point
  }

  function Before(keys: seq<nat>, point: nat): set<nat> {
    set k: nat | k in keys && k < point
  }

  /** One lap: the keys at or after `point`, then the keys before it. */
  function LapFrom(keys: seq<nat>, point: nat): seq<nat> {
    Restrict(keys, AtOrAfter(keys, point)) + Restrict(keys, Before(keys, point))
  }

  /** The distinct nodes in the order the ring is met clockwise from `point`. */
  function Clockwise(r: Ring, point: nat): seq<NodeId> {
    Dedup(Owners(LapFrom(r.sortedKeys, point), r.owner))
  }

  function LiveOwners(r: Ring): set<NodeId> {
    ToSet(Owners(r.sortedKeys, r.owner))
  }

  /** How many nodes a call of `getNodes` asks the walk for. */
  function Wanted(r: Ring, count: int): int {
    Min(count, |r.physicalNodes|)
  }

  function Take<T>(s: seq<T>, n: int): seq<T> {
    if n <= 0 then [] else if n >= |s| then s else s[..n]
  }

  // ---- the walk ----

  /** The keys read by the first `n` iterations of the walk from index `start`. */
  function Visited(keys: seq<nat>, start: nat, n: nat): (v: seq<nat>)
    requires keys != []
    ensures |v| == n
  {
    seq(n, j requires 0 <= j < n => keys[(start + j) % |keys|])
  }

  function Collected(r: Ring, start: nat, n: nat): seq<NodeId>
    requires r.sortedKeys != []
  {
    Dedup(Owners(Visited(r.sortedKeys, start, n), r.owner))
  }

  lemma {:induction false} OwnersAppend(a: seq<nat>, b: seq<nat>, owner: map<nat, NodeId>)
    ensures Owners(a + b, owner) == Owners(a, owner) + Owners(b, owner)
  {
    if b == [] {
      assert a + b == a;
    } else {
      OwnersAppend(a, Front(b), owner);
      assert Front(a + b) == a + Front(b) && Last(a + b) == Last(b);
    }
  }

  lemma {:induction false} OwnersElements(keys: seq<nat>, owner: map<nat, NodeId>)
    ensures forall n :: n in Owners(keys, owner) <==> n != "" && exists h :: h in keys && h in owner && owner[h] == n
  {
    if keys != [] {
      OwnersElements(Front(keys), owner);
      assert keys == Front(keys) + [Last(keys)];
    }
  }

  lemma CollectedGrows(r: Ring, start: nat, n: nat, m: nat)
    requires r.sortedKeys != [] && n <= m
    ensures Collected(r, start, n) <= Collected(r, start, m)
  {
    var short, long := Visited(r.sortedKeys, start, n), Visited(r.sortedKeys, start, m);
    assert long == short + long[n..];
    OwnersAppend(short, long[n..], r.owner);
    DedupPrefix(Owners(short, r.owner), Owners(long[n..], r.owner));
  }

  /** Whatever is collected is a live owner, so the walk can never hold more of them. */
  lemma CollectedBound(r: Ring, start: nat, n: nat)
    requires r.sortedKeys != []
    ensures |Collected(r, start, n)| <= |LiveOwners(r)|
  {
    var c := Collected(r, start, n);
    OwnersElements(Visited(r.sortedKeys, start, n), r.owner);
    OwnersElements(r.sortedKeys, r.owner);
    assert ToSet(c) <= LiveOwners(r);
    DistinctSize(c);
    SubsetSize(ToSet(c), LiveOwners(r));
  }

  ghost predicate Splits(keys: seq<nat>, start: nat, point: nat) {
    && start <= |keys|
    && (forall i :: 0 <= i < start ==> keys[i] < point)
    && (forall i :: start <= i < |keys| ==> keys[i] >= point)
  }

  lemma SplitLap(keys: seq<nat>, start: nat, point: nat)
    requires Splits(keys, start, point)
    ensures LapFrom(keys, point) == keys[start..] + keys[..start]
  {
    var low, high, above, below := keys[..start], keys[start..], AtOrAfter(keys, point), Before(keys, point);
    assert keys == low + high;
    SplitSides(keys, start, point);
    SplitPart(low, high, above);
    SplitPart(high, low, below);
    JoinFilters(low, high, above, below);
  }

  lemma JoinFilters(low: seq<nat>, high: seq<nat>, above: set<nat>, below: set<nat>)
    requires Restrict(low, above) == [] && Restrict(high, above) == high
    requires Restrict(high, below) == [] && Restrict(low, below) == low
    ensures Restrict(low + high, above) + Restrict(low + high, below) == high + low
  {
    var nothing: seq<nat> := [];
    assert Restrict(low + high, above) == high by {
      RestrictAppend(low, high, above);
      assert nothing + high == high;
    }
    assert Restrict(low + high, below) == low by {
      RestrictAppend(low, high, below);
      assert low + nothing == low;
    }
  }

  lemma SplitSides(keys: seq<nat>, start: nat, point: nat)
    requires Splits(keys, start, point)
    ensures forall x :: x in keys[..start] ==> x in Before(keys, point) && x !in AtOrAfter(keys, point)
    ensures forall x :: x in keys[start..] ==> x in AtOrAfter(keys, point) && x !in Before(keys, point)
  {
    forall x | x in keys[..start] ensures x in keys && x < point {
      var i :| 0 <= i < start && keys[..start][i] == x;
      assert keys[i] == x;
    }
    forall x | x in keys[start..] ensures x in keys && x >= point {
      var i :| 0 <= i < |keys[start..]| && keys[start..][i] == x;
      assert keys[start + i] == x;
    }
  }

  lemma SplitPart(dropped: seq<nat>, kept: seq<nat>, keep: set<nat>)
    requires forall x :: x in dropped ==> x !in keep
    requires forall x :: x in kept ==> x in keep
    ensures Restrict(dropped, keep) == [] && Restrict(kept, keep) == kept
  {
    RestrictNone(dropped, keep);
    RestrictAll(kept, keep);
  }

  lemma {:induction false} RestrictNone(s: seq<nat>, keep: set<nat>)
    requires forall x :: x in s ==> x !in keep
    ensures Restrict(s, keep) == []
  {
    if s != [] {
      assert Last(s) in s;
      RestrictNone(Front(s), keep);
    }
  }

  /** The index the walk starts from: the first key at or after `point`, or 0 when there is none. */
  ghost predicate StartsAt(keys: seq<nat>, start: nat, point: nat) {
    (Splits(keys, start, point) && start < |keys|) || (start == 0 && Splits(keys, |keys|, point))
  }

  lemma WrapIndex(i: nat, n: nat)
    requires i < n + n
    ensures n > 0 && i % n == if i < n then i else i - n
  {
  }

  lemma VisitedLap(keys: seq<nat>, start: nat)
    requires keys != [] && start < |keys|
    ensures Visited(keys, start, |keys|) == keys[start..] + keys[..start]
  {
    var v, w := Visited(keys, start, |keys|), keys[start..] + keys[..start];
    forall j | 0 <= j < |keys| ensures v[j] == w[j] {
      WrapIndex(start + j, |keys|);
    }
  }

  lemma LapFromStart(keys: seq<nat>, start: nat, point: nat)
    requires keys != [] && StartsAt(keys, start, point)
    ensures LapFrom(keys, point) == Visited(keys, start, |keys|)
  {
    VisitedLap(keys, start);
    if start < |keys| && Splits(keys, start, point) {
      SplitLap(keys, start, point);
    } else {
      SplitLap(keys, |keys|, point);
      assert keys[|keys|..] + keys[..|keys|] == keys == keys[0..] + keys[..0];
    }
  }

  /** After as many iterations as there are keys the walk has made exactly one lap. */
  lemma FullLap(r: Ring, start: nat, point: nat)
    requires r.sortedKeys != [] && StartsAt(r.sortedKeys, start, point)
    ensures Collected(r, start, |r.sortedKeys|) == Clockwise(r, point)
    ensures |Clockwise(r, point)| == |LiveOwners(r)|
  {
    LapFromStart(r.sortedKeys, start, point);
    LapElements(r.sortedKeys, point);
    OwnersElements(LapFrom(r.sortedKeys, point), r.owner);
    OwnersElements(r.sortedKeys, r.owner);
    assert ToSet(Clockwise(r, point)) == LiveOwners(r);
    DistinctSize(Clockwise(r, point));
  }

  lemma SplitAtKey(keys: seq<nat>, point: nat, i: nat)
    requires StrictlyIncreasing(keys) && i < |keys| && keys[i] >= point
    requires forall h :: h in keys && h >= point ==> keys[i] <= h
    ensures Splits(keys, i, point)
  {
    forall j | 0 <= j < i ensures keys[j] < point {
      assert keys[j] in keys && keys[j] < keys[i];
    }
  }

  lemma AllSmaller(keys: seq<nat>, point: nat)
    requires forall h :: h in keys ==> h < point
    ensures LapFrom(keys, point) == keys
  {
    assert forall j :: 0 <= j < |keys| ==> keys[j] in keys;
    SplitLap(keys, |keys|, point);
    assert keys[|keys|..] + keys[..|keys|] == keys;
  }

  /** The lap begins with the least key at or after the point, or with the least of all. */
  lemma LapBegins(keys: seq<nat>, point: nat, k: nat) returns (rest: seq<nat>)
    requires StrictlyIncreasing(keys) && k in keys
    requires if k >= point then forall h :: h in keys && h >= point ==> k <= h
             else forall h :: h in keys ==> k <= h && h < point
    ensures LapFrom(keys, point) == [k] + rest
  {
    var i :| 0 <= i < |keys| && keys[i] == k;
    if k >= point {
      SplitAtKey(keys, point, i);
      SplitLap(keys, i, point);
      rest := keys[i + 1..] + keys[..i];
      CutKey(keys, i);
    } else {
      AllSmaller(keys, point);
      LeastIsFirst(keys, k);
      rest := keys[1..];
    }
  }

  lemma CutKey(keys: seq<nat>, i: nat)
    requires i < |keys|
    ensures keys[i..] + keys[..i] == [keys[i]] + (keys[i + 1..] + keys[..i])
  {
  }

  lemma LeastIsFirst(keys: seq<nat>, k: nat)
    requires StrictlyIncreasing(keys) && k in keys && forall h :: h in keys ==> k <= h
    ensures keys == [k] + keys[1..]
  {
    assert keys[0] in keys;
  }

  /** The first node of a point is the owner of the least key at or after it, or of the
      least key of all if every key is smaller. */
  lemma FirstIsSuccessor(cfg: Config, r: Ring, point: nat, k: nat)
    requires Canonical(cfg, r) && "" !in r.physicalNodes && k in r.sortedKeys && k in r.owner
    requires if k >= point then forall h :: h in r.sortedKeys && h >= point ==> k <= h
             else forall h :: h in r.sortedKeys ==> k <= h && h < point
    ensures Clockwise(r, point) != [] && Clockwise(r, point)[0] == r.owner[k]
  {
    var rest := LapBegins(r.sortedKeys, point, k);
    OwnerNamed(cfg, r, k);
    FirstOwner(r.owner, k, rest);
  }

  lemma FirstOwner(owner: map<nat, NodeId>, k: nat, rest: seq<nat>)
    requires k in owner && owner[k] != ""
    ensures var order := Dedup(Owners([k] + rest, owner)); order != [] && order[0] == owner[k]
  {
    var first := [owner[k]];
    OwnersAppend([k], rest, owner);
    assert Front([k]) == [] && Owners([k], owner) == first;
    DedupPrefix(first, Owners(rest, owner));
    assert Front(first) == [] && Dedup(first) == first;
  }

  lemma OwnerNamed(cfg: Config, r: Ring, k: nat)
    requires Canonical(cfg, r) && "" !in r.physicalNodes && k in r.owner
    ensures r.owner[k] != ""
  {
    assert k in Tokens(cfg, ToSet(r.physicalNodes));
    var n, i: nat :| n in ToSet(r.physicalNodes) && i < cfg.virtualNodes && VNodeHash(cfg, n, i) == k;
    assert n in r.physicalNodes;
  }

  lemma LapElements(keys: seq<nat>, point: nat)
    ensures forall k :: k in LapFrom(keys, point) <==> k in keys
  {
  }

  /** What the walk has collected after `n` iterations; on a ring without keys every
      read is undefined and nothing is ever collected. */
  function Walked(r: Ring, start: nat, n: nat): seq<NodeId> {
    if r.sortedKeys == [] then [] else Collected(r, start, n)
  }

  /** The walk of `getNodes` stops if and only if the ring's keys have at least
      as many live owners as it is asked for; it then stops within one lap. */
  lemma WalkTerminatesIff(r: Ring, point: nat, start: nat, count: int)
    requires r.sortedKeys != [] ==> StartsAt(r.sortedKeys, start, point)
    ensures (exists n: nat :: |Walked(r, start, n)| >= Wanted(r, count)) <==> Wanted(r, count) <= |LiveOwners(r)|
    ensures Wanted(r, count) <= |LiveOwners(r)| ==> |Walked(r, start, |r.sortedKeys|)| >= Wanted(r, count)
  {
    if r.sortedKeys == [] {
      assert LiveOwners(r) == {};
      assert Walked(r, start, 0) == [];
    } else {
      FullLap(r, start, point);
      assert Walked(r, start, |r.sortedKeys|) == Clockwise(r, point);
      forall n: nat | |Walked(r, start, n)| >= Wanted(r, count)
        ensures Wanted(r, count) <= |LiveOwners(r)|
      {
        CollectedBound(r, start, n);
      }
    }
  }

  /** In a collision-free ring every node owns a key, so the walk always stops. */
  lemma CanonicalOwners(cfg: Config, r: Ring)
    requires Canonical(cfg, r) && cfg.virtualNodes >= 1 && "" !in r.physicalNodes
    ensures LiveOwners(r) == ToSet(r.physicalNodes)
    ensures |LiveOwners(r)| == |r.physicalNodes|
    ensures r.physicalNodes != [] ==> r.sortedKeys != []
  {
    OwnersElements(r.sortedKeys, r.owner);
    forall n ensures n in LiveOwners(r) <==> n in r.physicalNodes {
      if n in r.physicalNodes {
        assert VNodeHash(cfg, n, 0) in r.owner.Keys;
        assert VNodeHash(cfg, n, 0) in ToSet(r.sortedKeys);
      }
      if n in LiveOwners(r) {
        var h :| h in r.sortedKeys && h in r.owner && r.owner[h] == n;
        var m, i: nat :| m in ToSet(r.physicalNodes) && i < cfg.virtualNodes && VNodeHash(cfg, m, i) == h;
        assert m == n;
      }
    }
    assert LiveOwners(r) == ToSet(r.physicalNodes);
    DistinctSize(r.physicalNodes);
    if r.physicalNodes != [] {
      assert r.physicalNodes[0] in LiveOwners(r);
    }
  }

  // ---- rings over different node sets ----

  lemma {:induction false} OwnersRestrict(keys: seq<nat>, wide: map<nat, NodeId>, narrow: map<nat, NodeId>, nodes: set<NodeId>)
    requires forall k :: k in keys ==> k in wide && (k in narrow <==> wide[k] in nodes)
    requires forall k :: k in keys && k in narrow ==> narrow[k] == wide[k]
    ensures Owners(Restrict(keys, narrow.Keys), narrow) == Restrict(Owners(keys, wide), nodes)
  {
    if keys != [] {
      assert Last(keys) in keys;
      OwnersRestrict(Front(keys), wide, narrow, nodes);
    }
  }

  /** How the owners of a smaller canonical ring sit inside a larger one. */
  lemma NestedOwners(cfg: Config, wide: Ring, narrow: Ring)
    requires Canonical(cfg, wide) && Canonical(cfg, narrow)
    requires ToSet(narrow.physicalNodes) <= ToSet(wide.physicalNodes)
    ensures forall k :: k in wide.sortedKeys ==>
              k in wide.owner && (k in narrow.owner <==> wide.owner[k] in ToSet(narrow.physicalNodes))
    ensures forall k :: k in narrow.owner ==> k in wide.owner && narrow.owner[k] == wide.owner[k]
  {
    forall k | k in narrow.owner
      ensures k in wide.owner && narrow.owner[k] == wide.owner[k] && wide.owner[k] in narrow.physicalNodes
    {
      var n, i: nat :| n in ToSet(narrow.physicalNodes) && i < cfg.virtualNodes && VNodeHash(cfg, n, i) == k;
      assert n in narrow.physicalNodes && n in ToSet(wide.physicalNodes);
    }
    forall k | k in wide.sortedKeys && wide.owner[k] in ToSet(narrow.physicalNodes)
      ensures k in narrow.owner
    {
      assert k in ToSet(wide.sortedKeys);
      var n, i: nat :| n in ToSet(wide.physicalNodes) && i < cfg.virtualNodes && VNodeHash(cfg, n, i) == k;
      assert n == wide.owner[k] && n in narrow.physicalNodes;
    }
  }

  lemma NestedKeys(cfg: Config, wide: Ring, narrow: Ring)
    requires Canonical(cfg, wide) && Canonical(cfg, narrow)
    requires ToSet(narrow.physicalNodes) <= ToSet(wide.physicalNodes)
    ensures narrow.sortedKeys == Restrict(wide.sortedKeys, narrow.owner.Keys)
  {
    NestedOwners(cfg, wide, narrow);
    RestrictIncreasing(wide.sortedKeys, narrow.owner.Keys);
    var kept := Restrict(wide.sortedKeys, narrow.owner.Keys);
    forall k ensures k in ToSet(kept) <==> k in ToSet(narrow.sortedKeys) {
      if k in ToSet(narrow.sortedKeys) {
        assert k in narrow.owner.Keys && k in wide.owner.Keys && k in ToSet(wide.sortedKeys);
      }
      if k in ToSet(kept) {
        assert k in narrow.owner.Keys;
      }
    }
    assert ToSet(kept) == ToSet(narrow.sortedKeys);
    IncreasingUnique(kept, narrow.sortedKeys);
  }

  lemma LapRestrict(keys: seq<nat>, keep: set<nat>, point: nat)
    ensures LapFrom(Restrict(keys, keep), point) == Restrict(LapFrom(keys, point), keep)
  {
    var above, below, kept := AtOrAfter(keys, point), Before(keys, point), Restrict(keys, keep);
    RestrictAppend(Restrict(keys, above), Restrict(keys, below), keep);
    FiltersCommute(keys, above, AtOrAfter(kept, point), keep);
    FiltersCommute(keys, below, Before(kept, point), keep);
  }

  lemma FiltersCommute(s: seq<nat>, a: set<nat>, a': set<nat>, b: set<nat>)
    requires a * b == b * a'
    ensures Restrict(Restrict(s, a), b) == Restrict(Restrict(s, b), a')
  {
    RestrictTwice(s, a, b);
    RestrictTwice(s, b, a');
  }

  /** The central ring theorem: over a smaller node set the clockwise order is
      the larger one with the missing nodes struck out, from every point. */
  lemma OrderOfSubset(cfg: Config, wide: Ring, narrow: Ring, point: nat)
    requires Canonical(cfg, wide) && Canonical(cfg, narrow)
    requires ToSet(narrow.physicalNodes) <= ToSet(wide.physicalNodes)
    ensures Clockwise(narrow, point) == Restrict(Clockwise(wide, point), ToSet(narrow.physicalNodes))
  {
    var keep := narrow.owner.Keys;
    var lap := LapFrom(wide.sortedKeys, point);
    NestedOwners(cfg, wide, narrow);
    NestedKeys(cfg, wide, narrow);
    LapRestrict(wide.sortedKeys, keep, point);
    OwnersRestrict(lap, wide.owner, narrow.owner, ToSet(narrow.physicalNodes));
    DedupRestrict(Owners(lap, wide.owner), ToSet(narrow.physicalNodes));
  }

  /** Minimal disruption: removing a node deletes it from every clockwise order
      and moves nothing else; adding it back is the same statement read backwards. */
  lemma RemoveNodeDisruptsMinimally(cfg: Config, r: Ring, id: NodeId, point: nat)
    requires Canonical(cfg, r) && NoCollision(cfg, ToSet(r.physicalNodes))
    ensures Clockwise(RemoveNode(r, id), point) == Without(Clockwise(r, point), id)
  {
    RemoveNodeCanonical(cfg, r, id);
    OrderOfSubset(cfg, r, RemoveNode(r, id), point);
    OrderElements(cfg, r, point);
    RestrictSame(Clockwise(r, point), ToSet(r.physicalNodes) - {id}, ToSet(Clockwise(r, point)) - {id});
  }

  lemma AddNodeDisruptsMinimally(cfg: Config, r: Ring, id: NodeId, point: nat)
    requires Canonical(cfg, r) && NoCollision(cfg, ToSet(r.physicalNodes) + {id}) && id !in r.physicalNodes
    ensures Clockwise(r, point) == Without(Clockwise(AddNode(cfg, r, id), point), id)
  {
    AddNodeCanonical(cfg, r, id);
    var wide := AddNode(cfg, r, id);
    OrderOfSubset(cfg, wide, r, point);
    OrderElements(cfg, wide, point);
    RestrictSame(Clockwise(wide, point), ToSet(r.physicalNodes), ToSet(Clockwise(wide, point)) - {id});
  }

  lemma OrderElements(cfg: Config, r: Ring, point: nat)
    requires Canonical(cfg, r)
    ensures ToSet(Clockwise(r, point)) <= ToSet(r.physicalNodes)
  {
    OwnersElements(LapFrom(r.sortedKeys, point), r.owner);
    forall n | n in Clockwise(r, point) ensures n in r.physicalNodes {
      var h :| h in LapFrom(r.sortedKeys, point) && h in r.owner && r.owner[h] == n;
      assert h in r.owner.Keys;
      var m, i: nat :| m in ToSet(r.physicalNodes) && i < cfg.virtualNodes && VNodeHash(cfg, m, i) == h;
      assert m in r.physicalNodes && r.owner[VNodeHash(cfg, m, i)] == m;
    }
  }

  // ---- the first k ----

  /** Striking one node out of an order changes its first `k` only if the node
      was among them, and then lets in exactly the next one. */
  lemma TakeWithout(order: seq<NodeId>, id: NodeId, k: nat)
    requires Distinct(order)
    ensures id !in Take(order, k) ==> Take(Without(order, id), k) == Take(order, k)
    ensures id in Take(order, k) ==>
              Take(Without(order, id), k) == Without(Take(order, k), id) + (if k < |order| then [order[k]] else [])
  {
    if id in Take(order, k) {
      var i :| 0 <= i < |Take(order, k)| && Take(order, k)[i] == id;
      WithoutAt(order, i);
      WithoutAt(Take(order, k), i);
      TakeGap(order, i, k);
    } else if id in order {
      var i :| 0 <= i < |order| && order[i] == id;
      assert forall j :: 0 <= j < |Take(order, k)| ==> Take(order, k)[j] == order[j] != id;
      assert i >= k;
      WithoutAt(order, i);
      assert Take(order[..i] + order[i + 1..], k) == Take(order, k);
    } else {
      RestrictAll(order, ToSet(order) - {id});
    }
  }

  lemma TakeGap(order: seq<NodeId>, i: nat, k: nat)
    requires i < |Take(order, k)|
    ensures var first := Take(order, k);
            Take(order[..i] + order[i + 1..], k)
            == first[..i] + first[i + 1..] + (if k < |order| then [order[k]] else [])
  {
    if k < |order| {
      assert Take(order[..i] + order[i + 1..], k) == order[..i] + order[i + 1..k + 1];
    }
  }

  lemma WithoutAt(order: seq<NodeId>, i: nat)
    requires Distinct(order) && i < |order|
    ensures Without(order, order[i]) == order[..i] + order[i + 1..]
  {
    var keep := ToSet(order) - {order[i]};
    assert order == (order[..i] + [order[i]]) + order[i + 1..];
    StruckOut(order[..i], order[i], order[i + 1..], keep);
  }

  lemma StruckOut(before: seq<NodeId>, x: NodeId, after: seq<NodeId>, keep: set<NodeId>)
    requires ToSet(before) <= keep && ToSet(after) <= keep && x !in keep
    ensures Restrict((before + [x]) + after, keep) == before + after
  {
    RestrictAppend(before + [x], after, keep);
    RestrictPush(before, x, keep);
    RestrictAll(before, keep);
    RestrictAll(after, keep);
  }

  /** Filtering the first `k` of an order gives the start of the filtered order. */
  lemma TakeRestrict(order: seq<NodeId>, keep: set<NodeId>, k: nat)
    ensures Restrict(Take(order, k), keep) <= Take(Restrict(order, keep), k)
  {
    var first := Take(order, k);
    assert order == first + order[|first|..];
    RestrictAppend(first, order[|first|..], keep);
  }
}
