/** `EdgeCacheService` as an object over its Redis keys and its disk. */
module EdgeCacheService {
  import opened Options
  import opened Sequences
  import opened Totals
  import opened LruBooks
  import opened CacheKeys
  import opened EdgeCache

  /** `c'` is `c` after dropping the least-recently-used entries `gone`. */
  ghost predicate Dropping(c: Cache, c': Cache, gone: set<Key>) {
    gone <= c.lru.Keys && OlderClosed(c.lru, gone) && c' == Forget(c, gone, c'.size)
  }

  ghost function Freed(c: Cache, gone: set<Key>): int {
    Total(Among(DeclaredSizes(c.meta), gone))
  }

  /** Every entry declares a positive size. */
  ghost predicate AllDeclared(c: Cache) {
    c.lru.Keys == c.meta.Keys && forall k :: k in c.meta ==> c.meta[k].size > 0
  }

  /** Without the last of the dropped entries the counter would still be over the limit. */
  ghost predicate Needed(c: Cache, gone: set<Key>, limit: nat) {
    gone == {} ||
    exists last :: last in gone && (forall j :: j in gone && j in c.lru && last in c.lru ==> c.lru[j] <= c.lru[last]) &&
                   c.size - Freed(c, gone - {last}) > limit
  }

  /** `c'` is `c` after eviction: a least-recently-used prefix is gone and the counter is
      within the limit; and if the declared sizes are positive, no entry went in vain and
      the counter lost what was declared, unless everything went. */
  ghost predicate Evicted(c: Cache, c': Cache, limit: nat) {
    && c'.size <= limit
    && exists gone :: Dropping(c, c', gone) &&
                      (AllDeclared(c) ==> Needed(c, gone, limit) && (c'.size == c.size - Freed(c, gone) || c'.lru == map[]))
  }

  lemma DroppedNothing(c: Cache)
    ensures Dropping(c, c, {}) && Freed(c, {}) == 0
  {
    RemoveNone(c.meta);
    RemoveNone(c.ram);
    RemoveNone(c.lru);
    TotalEmpty(Among(DeclaredSizes(c.meta), {}));
  }

  lemma DropOneMore(c: Cache, c1: Cache, c2: Cache, gone: set<Key>, o: Key)
    requires Dropping(c, c1, gone) && IsOldest(c1.lru, o) && c2 == Forget(c1, {o}, c2.size)
    ensures Dropping(c, c2, gone + {o}) && o !in gone
    ensures Freed(c, gone + {o}) == Freed(c, gone) + if o in c1.meta then c1.meta[o].size else 0
  {
    RemoveTwice(c.meta, gone, {o});
    RemoveTwice(c.ram, gone, {o});
    RemoveTwice(c.lru, gone, {o});
    ClosedWithOldest(c.lru, gone, o);
    AmongOneMore(DeclaredSizes(c.meta), gone, o);
  }

  lemma ClosedWithOldest(lru: map<Key, int>, gone: set<Key>, o: Key)
    requires OlderClosed(lru, gone) && IsOldest(lru - gone, o)
    ensures OlderClosed(lru, gone + {o})
    ensures forall j :: j in gone && j in lru ==> lru[j] <= lru[o]
  {
    assert forall j :: j in lru && j !in gone ==> j in lru - gone;
  }

  lemma OneMoreNeeded(c: Cache, c1: Cache, gone: set<Key>, o: Key, limit: nat)
    requires Dropping(c, c1, gone) && IsOldest(c1.lru, o) && o !in gone && c.size - Freed(c, gone) > limit
    ensures Needed(c, gone + {o}, limit)
  {
    ClosedWithOldest(c.lru, gone, o);
    assert gone + {o} - {o} == gone;
  }

  /** What a purge does to one version key. */
  function DropOne(c: Cache, k: Key): Cache {
    c.(meta := c.meta - {k}, ram := c.ram - {k}, lru := c.lru - {k},
       size := c.size - if k in c.meta then c.meta[k].size else 0)
  }

  function DropEach(c: Cache, order: seq<Key>): Cache {
    if order == [] then c else DropOne(DropEach(c, Front(order)), Last(order))
  }

  lemma DropPush(c: Cache, order: seq<Key>, k: Key)
    ensures DropEach(c, order + [k]) == DropOne(DropEach(c, order), k)
  {
    assert Front(order + [k]) == order;
  }

  /** `c'` is `c` without the keys `gone`, each refunded with its recorded size. */
  ghost predicate Without(c: Cache, c': Cache, gone: set<Key>) {
    && c'.meta == c.meta - gone && c'.ram == c.ram - gone && c'.lru == c.lru - gone
    && c'.size == c.size - Total(Among(DeclaredSizes(c.meta), gone))
    && c'.disk == c.disk && c'.keys == c.keys && c'.current == c.current
  }

  lemma WithoutNone(c: Cache)
    ensures Without(c, c, {})
  {
    TotalEmpty(Among(DeclaredSizes(c.meta), {}));
    RemoveNone(c.meta);
    RemoveNone(c.ram);
    RemoveNone(c.lru);
  }

  lemma WithoutOneMore(c: Cache, before: Cache, gone: set<Key>, k: Key, more: set<Key>)
    requires Without(c, before, gone) && k !in gone && more == gone + {k}
    ensures Without(c, DropOne(before, k), more)
  {
    AmongOneMore(DeclaredSizes(c.meta), gone, k);
    RemoveTwice(c.meta, gone, {k});
    RemoveTwice(c.ram, gone, {k});
    RemoveTwice(c.lru, gone, {k});
  }

  /** Whatever the order. */
  lemma {:induction false} DropEachResult(c: Cache, order: seq<Key>, gone: set<Key>)
    requires Distinct(order) && gone == ToSet(order)
    ensures Without(c, DropEach(c, order), gone)
  {
    if order == [] {
      WithoutNone(c);
    } else {
      var front, k := Front(order), Last(order);
      assert order == front + [k];
      Pushed(front, k);
      DropEachResult(c, front, ToSet(front));
      WithoutOneMore(c, DropEach(c, front), ToSet(front), k, gone);
    }
  }

  lemma DroppedIs(c: Cache, order: seq<Key>, ks: set<Key>)
    requires Distinct(order) && ToSet(order) == ks
    ensures DropEach(c, order) == EdgeCache.DropVersions(c, ks)
  {
    DropEachResult(c, order, ks);
  }

  class EdgeCacheService {
    const maxCacheSize: nat
    const diskThresholdBytes: nat
    var meta: map<Key, EdgeMetadata>
    var ram: map<Key, Bytes>
    var disk: map<DiskPath, Bytes>
    var lru: map<Key, int>
    var size: int
    var keys: map<FileId, set<Key>>
    var current: map<FileId, string>

    ghost function Model(): Cache
      reads this
    {
      Cache(meta, ram, disk, lru, size, keys, current)
    }

    constructor (maxCacheSize: nat, diskThresholdBytes: nat)
      ensures this.maxCacheSize == maxCacheSize && this.diskThresholdBytes == diskThresholdBytes
      ensures Model() == EMPTY_EDGE
    {
      this.maxCacheSize, this.diskThresholdBytes := maxCacheSize, diskThresholdBytes;
      meta, ram, disk, lru, size, keys, current := map[], map[], map[], map[], 0, map[], map[];
    }

    method GetBinary(fileId: FileId, version: string, now: int, diskReadable: bool) returns (r: Option<Bytes>)
      requires Coherent(Model())
      modifies this
      ensures r == Read(old(Model()), Key(fileId, version), diskReadable)
      ensures diskReadable ==> r == Lookup(Contents(old(Model())), Key(fileId, version))
      ensures Model() == Touch(old(Model()), Key(fileId, version), now, diskReadable)
      ensures Contents(Model()) == Contents(old(Model()))
    {
      var k := Key(fileId, version);
      ReadIsLookup(Model(), k);
      TouchContents(Model(), k, now, diskReadable);
      if k in meta && meta[k].isDiskBacked && meta[k].diskPath.Some? && diskReadable && meta[k].diskPath.value in disk {
        lru := lru[k := now];
        return Some(disk[meta[k].diskPath.value]);
      }
      if k !in ram {
        return None;
      }
      lru := lru[k := now];
      return Some(ram[k]);
    }

    method CacheFile(fileId: FileId, version: string, metadata: EdgeMetadata, binary: Bytes, now: int)
      modifies this
      ensures Evicted(Write(old(Model()), Key(fileId, version), metadata, binary, now, diskThresholdBytes), Model(),
                      maxCacheSize)
    {
      WriteEntry(Key(fileId, version), metadata, binary, now);
      EnforceEvictionPolicy();
    }

    method WriteEntry(baseKey: Key, metadata: EdgeMetadata, binary: Bytes, now: int)
      modifies this
      ensures Model() == Write(old(Model()), baseKey, metadata, binary, now, diskThresholdBytes)
    {
      var isLarge := |binary| >= diskThresholdBytes;
      var diskPath := None;
      if isLarge {
        diskPath := Some(PathOf(baseKey));
        disk := disk[PathOf(baseKey) := binary];
      }
      meta := meta[baseKey := metadata.(isDiskBacked := isLarge, diskPath := diskPath)];
      if !isLarge {
        ram := ram[baseKey := binary];
        size := size + |binary|;
      } else {
        size := size + |binary| / 10;
      }
      lru := lru[baseKey := now];
      keys := keys[baseKey.fileId := KeysOf(keys, baseKey.fileId) + {baseKey}];
      SameEdge(Model(), Write(old(Model()), baseKey, metadata, binary, now, diskThresholdBytes));
    }

    /** The eviction script: it drops the least recently used entry and reports the
        size its metadata declares, or 0 when there is nothing to drop. */
    method EvictOldest() returns (freed: int, ghost victim: set<Key>)
      modifies this
      ensures old(lru) == map[] ==> freed == 0 && victim == {} && Model() == old(Model())
      ensures old(lru) != map[] ==>
                lru.Keys < old(lru).Keys && exists o :: victim == {o} && Drops(old(Model()), Model(), freed, o)
    {
      if lru == map[] {
        return 0, {};
      }
      OldestExists(lru);
      var baseKey :| baseKey in lru && forall j :: j in lru ==> lru[baseKey] <= lru[j];
      assert IsOldest(lru, baseKey);
      victim := {baseKey};
      freed := if baseKey in meta then meta[baseKey].size else 0;
      ram := ram - {baseKey};
      meta := meta - {baseKey};
      lru := lru - {baseKey};
      if freed > 0 {
        size := size - freed;
      }
      assert Drops(old(Model()), Model(), freed, baseKey);
    }

    /** One turn: either the loop goes on from there, or the counter is to be reset. */
    method EvictTurn(ghost start: Cache, ghost gone: set<Key>, sizeToFree: int) returns (freed: int, ghost more: set<Key>)
      requires Progress(start, Model(), gone, maxCacheSize, sizeToFree) && sizeToFree > 0
      modifies this
      ensures freed == 0 ==> Evicted(start, Model().(size := 0), maxCacheSize)
      ensures freed != 0 ==> Progress(start, Model(), more, maxCacheSize, sizeToFree - freed) && lru.Keys < old(lru).Keys
    {
      ghost var before := Model();
      ghost var victim;
      freed, victim := EvictOldest();
      more := gone;
      if before.lru != map[] {
        ghost var o :| victim == {o} && Drops(before, Model(), freed, o);
        ProgressStep(start, before, Model(), gone, o, maxCacheSize, sizeToFree, freed);
        more := gone + {o};
      }
      if freed == 0 {
        ResetEnds(start, Model(), more, maxCacheSize);
      }
    }

    /** Sizes on the edge are not exact, so the loop may also end by resetting the
        counter, when an entry declares nothing or nothing is left. */
    method EnforceEvictionPolicy()
      modifies this
      ensures Evicted(old(Model()), Model(), maxCacheSize)
      ensures old(size) <= maxCacheSize ==> Model() == old(Model())
    {
      ghost var start := Model();
      ghost var gone: set<Key> := {};
      DroppedNothing(start);
      if size <= maxCacheSize {
        ProgressEnds(start, start, gone, maxCacheSize, size - maxCacheSize);
        return;
      }
      var sizeToFree := size - maxCacheSize;
      while sizeToFree > 0
        invariant Progress(start, Model(), gone, maxCacheSize, sizeToFree)
        decreases lru.Keys
      {
        var freedBytes;
        freedBytes, gone := EvictTurn(start, gone, sizeToFree);
        if freedBytes == 0 {
          size := 0;
          return;
        }
        sizeToFree := sizeToFree - freedBytes;
      }
      ProgressEnds(start, Model(), gone, maxCacheSize, sizeToFree);
    }

    method DropVersion(baseKey: Key)
      modifies `meta, `ram, `lru, `size
      ensures Model() == DropOne(old(Model()), baseKey)
    {
      lru := lru - {baseKey};
      if baseKey in meta {
        size := size - meta[baseKey].size;
      }
      meta := meta - {baseKey};
      ram := ram - {baseKey};
    }

    method DropVersions(versionKeys: set<Key>) returns (ghost order: seq<Key>)
      modifies `meta, `ram, `lru, `size
      ensures Distinct(order) && ToSet(order) == versionKeys
      ensures Model() == DropEach(old(Model()), order)
    {
      var pending := versionKeys;
      order := [];
      while pending != {}
        invariant Distinct(order) && ToSet(order) !! pending
        invariant ToSet(order) + pending == versionKeys
        invariant Model() == DropEach(old(Model()), order)
        decreases pending
      {
        var baseKey :| baseKey in pending;
        Pushed(order, baseKey);
        DropPush(old(Model()), order, baseKey);
        DropVersion(baseKey);
        pending, order := pending - {baseKey}, order + [baseKey];
      }
    }

    method EvictFile(fileId: FileId)
      modifies this
      ensures Model() == EdgeCache.EvictFile(old(Model()), fileId)
    {
      var versionKeys := KeysOf(keys, fileId);
      if versionKeys == {} {
        return;
      }
      ghost var order := DropVersions(versionKeys);
      DroppedIs(old(Model()), order, versionKeys);
      RemoveFile(fileId);
    }

    /** The last part of a purge: the file's pointer, key set and directory go. */
    method RemoveFile(fileId: FileId)
      modifies `current, `keys, `disk
      ensures Model() == ForgetFile(old(Model()), fileId)
    {
      current := current - {fileId};
      keys := keys - {fileId};
      disk := WithoutFile(disk, fileId);
    }
  }

  /** One turn of the script. */
  ghost predicate Drops(c: Cache, c': Cache, freed: int, o: Key) {
    && IsOldest(c.lru, o) && freed == (if o in c.meta then c.meta[o].size else 0)
    && c' == Forget(c, {o}, if freed > 0 then c.size - freed else c.size)
  }

  /** Between turns: what is gone was needed, and at least the excess is still to free. */
  ghost predicate Progress(c: Cache, c': Cache, gone: set<Key>, limit: nat, toFree: int) {
    && Dropping(c, c', gone) && c'.size - limit <= toFree
    && (AllDeclared(c) ==> Needed(c, gone, limit) && c'.size == c.size - Freed(c, gone) && toFree == c'.size - limit)
  }

  lemma ProgressStep(c: Cache, c1: Cache, c2: Cache, gone: set<Key>, o: Key, limit: nat, toFree: int, freed: int)
    requires Progress(c, c1, gone, limit, toFree) && toFree > 0 && Drops(c1, c2, freed, o)
    ensures Dropping(c, c2, gone + {o})
    ensures c2.size - limit <= toFree - freed
    ensures AllDeclared(c) ==>
              Needed(c, gone + {o}, limit) && freed > 0 && c2.size == c.size - Freed(c, gone + {o}) && toFree - freed == c2.size - limit
  {
    DropOneMore(c, c1, c2, gone, o);
    if AllDeclared(c) {
      OneMoreNeeded(c, c1, gone, o, limit);
      assert o in c1.meta;
    }
  }

  lemma ProgressEnds(c: Cache, c': Cache, gone: set<Key>, limit: nat, toFree: int)
    requires Progress(c, c', gone, limit, toFree) && toFree <= 0
    ensures Evicted(c, c', limit)
  {
  }

  lemma ResetEnds(c: Cache, c': Cache, gone: set<Key>, limit: nat)
    requires Dropping(c, c', gone)
    requires AllDeclared(c) ==> Needed(c, gone, limit) && c'.lru == map[]
    ensures Evicted(c, c'.(size := 0), limit)
  {
    assert Dropping(c, c'.(size := 0), gone);
  }
}
