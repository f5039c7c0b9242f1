/** `CacheManagerService` as an object over its Redis keys. */
module CacheManager {
  import opened Options
  import opened Sequences
  import opened Totals
  import opened LruBooks
  import opened CacheKeys
  import opened CoreCache
  import opened CacheDrift

  /** Between turns of the eviction loop, with `left` to free and `goal` where it ends. */
  ghost predicate OnCourse(goal: Cache, c: Cache, left: int) {
    Indexed(c) && EvictLoop(c, left) == goal
  }

  lemma AccountedEviction(c: Cache, limit: nat, toFree: int)
    requires Accounted(c) && toFree == Excess(c, limit)
    ensures EvictLoop(c, toFree) == Enforce(c, limit) && Accounted(EvictLoop(c, toFree))
  {
    LoopIsEnforce(c, limit, toFree);
    EvictionKeepsBooks(c, limit);
  }

  lemma TurnStaysOnCourse(goal: Cache, c: Cache, left: int, o: Key, next: int)
    requires OnCourse(goal, c, left) && left > 0 && IsOldest(c.lru, o) && next == LeftToFree(c, o, left)
    ensures if Declared(c, o) == 0 then Turn(c, o) == goal else OnCourse(goal, Turn(c, o), next)
  {
    LoopTurn(c, o, left);
    TurnKeepsIndexed(c, o);
  }

  /** What a purge does to one version key. */
  function DropOne(c: Cache, k: Key): Cache {
    c.(meta := c.meta - {k}, data := c.data - {k}, lru := c.lru - {k},
       size := c.size - if k in c.meta then c.meta[k].size else 0)
  }

  function DropEach(c: Cache, order: seq<Key>): Cache {
    if order == [] then c else DropOne(DropEach(c, Front(order)), Last(order))
  }

  lemma DropPush(c: Cache, order: seq<Key>, k: Key)
    ensures DropEach(c, order + [k]) == DropOne(DropEach(c, order), k)
  {
    assert Front(order + [k]) == order;
  }

  /** `c'` is `c` without the keys `gone`, each refunded with its recorded size. */
  ghost predicate Without(c: Cache, c': Cache, gone: set<Key>) {
    && c'.meta == c.meta - gone && c'.data == c.data - gone && c'.lru == c.lru - gone
    && c'.size == c.size - Total(Among(DeclaredSizes(c.meta), gone))
    && c'.keys == c.keys && c'.current == c.current
  }

  lemma WithoutNone(c: Cache)
    ensures Without(c, c, {})
  {
    TotalEmpty(Among(DeclaredSizes(c.meta), {}));
    RemoveNone(c.meta);
    RemoveNone(c.data);
    RemoveNone(c.lru);
  }

  lemma WithoutOneMore(c: Cache, before: Cache, gone: set<Key>, k: Key, more: set<Key>)
    requires Without(c, before, gone) && k !in gone && more == gone + {k}
    ensures Without(c, DropOne(before, k), more)
  {
    AmongOneMore(DeclaredSizes(c.meta), gone, k);
    RemoveTwice(c.meta, gone, {k});
    RemoveTwice(c.data, gone, {k});
    RemoveTwice(c.lru, gone, {k});
  }

  /** Whatever the order. */
  lemma {:induction false} DropEachResult(c: Cache, order: seq<Key>, gone: set<Key>)
    requires Distinct(order) && gone == ToSet(order)
    ensures Without(c, DropEach(c, order), gone)
  {
    if order == [] {
      WithoutNone(c);
    } else {
      var front, k := Front(order), Last(order);
      assert order == front + [k];
      Pushed(front, k);
      DropEachResult(c, front, ToSet(front));
      WithoutOneMore(c, DropEach(c, front), ToSet(front), k, gone);
    }
  }

  /** What a purge does to the file itself. */
  function ForgetFile(c: Cache, fileId: FileId): Cache {
    c.(keys := c.keys - {fileId}, current := c.current - {fileId})
  }

  lemma ForgottenFile(c: Cache, dropped: Cache, fileId: FileId, ks: set<Key>)
    requires ks == KeysOf(c.keys, fileId) && ks != {} && Without(c, dropped, ks)
    ensures ForgetFile(dropped, fileId) == CoreCache.EvictFile(c, fileId)
  {
  }

  lemma PurgeIs(c: Cache, order: seq<Key>, after: Cache, fileId: FileId, ks: set<Key>)
    requires ks == KeysOf(c.keys, fileId) && ks != {} && Distinct(order) && ToSet(order) == ks
    requires after == ForgetFile(DropEach(c, order), fileId)
    ensures after == CoreCache.EvictFile(c, fileId)
  {
    DropEachResult(c, order, ks);
    ForgottenFile(c, DropEach(c, order), fileId, ks);
  }

  class CacheManagerService {
    const maxCacheSize: nat
    var meta: map<Key, CacheMetadata>
    var data: map<Key, Bytes>
    var lru: map<Key, int>
    var size: int
    var keys: map<FileId, set<Key>>
    var current: map<FileId, string>

    ghost function Model(): Cache
      reads this
    {
      Cache(meta, data, lru, size, keys, current)
    }

    constructor (maxCacheSize: nat)
      ensures this.maxCacheSize == maxCacheSize && Model() == EMPTY_CACHE
    {
      this.maxCacheSize := maxCacheSize;
      meta, data, lru, size, keys, current := map[], map[], map[], 0, map[], map[];
    }

    method GetBinary(fileId: FileId, version: string, now: int) returns (r: Option<Bytes>)
      modifies this
      ensures Model() == Touch(old(Model()), Key(fileId, version), now)
      ensures r == if Key(fileId, version) in data then Some(data[Key(fileId, version)]) else None
    {
      var k := Key(fileId, version);
      if k !in data {
        return None;
      }
      lru := lru[k := now];
      return Some(data[k]);
    }

    /** Whatever size is declared the counter ends within the limit; the cache is what
        the write and the eviction loop make of it, and with true sizes everywhere that is
        the exact least-recently-used eviction. */
    method CacheFile(fileId: FileId, version: string, metadata: CacheMetadata, binary: Bytes, now: int)
      modifies this
      ensures size <= maxCacheSize
      ensures var written := Write(old(Model()), Key(fileId, version), metadata, binary, now);
              && (Indexed(old(Model())) && Newer(old(lru), now) ==> Model() == EvictLoop(written, Excess(written, maxCacheSize)))
              && (Accounted(old(Model())) && Newer(old(lru), now) && metadata.size == |binary| > 0 ==>
                    Accounted(Model()) && Model() == Enforce(written, maxCacheSize))
    {
      if Newer(lru, now) {
        if Indexed(Model()) {
          WriteStaysIndexed(Model(), Key(fileId, version), metadata, binary, now);
        }
        if Accounted(Model()) {
          WriteAccountedIff(Model(), Key(fileId, version), metadata, binary, now);
        }
      }
      WriteEntry(Key(fileId, version), metadata, binary, now);
      EnforceEvictionPolicy();
    }

    /** The pipeline of a write. */
    method WriteEntry(baseKey: Key, metadata: CacheMetadata, binary: Bytes, now: int)
      modifies this
      ensures Model() == Write(old(Model()), baseKey, metadata, binary, now)
    {
      var previousSize := if baseKey in data then |data[baseKey]| else 0;
      meta := meta[baseKey := metadata];
      data := data[baseKey := binary];
      lru := lru[baseKey := now];
      var sizeDelta := |binary| - previousSize;
      if sizeDelta != 0 {
        size := size + sizeDelta;
      }
      keys := keys[baseKey.fileId := KeysOf(keys, baseKey.fileId) + {baseKey}];
      SameCache(Model(), Write(old(Model()), baseKey, metadata, binary, now));
    }

    /** The eviction script: it drops the least recently used entry and reports the
        size its metadata declares, or 0 when there is nothing to drop. */
    method EvictOldest() returns (freed: int)
      modifies this
      ensures old(lru) == map[] ==> freed == 0 && Model() == old(Model())
      ensures old(lru) != map[] ==>
                exists k :: IsOldest(old(lru), k) && Model() == EvictKey(old(Model()), k) &&
                            freed == if k in old(meta) then old(meta)[k].size else 0
    {
      if lru == map[] {
        return 0;
      }
      OldestExists(lru);
      var baseKey :| baseKey in lru && forall j :: j in lru ==> lru[baseKey] <= lru[j];
      assert IsOldest(lru, baseKey);
      freed := if baseKey in meta then meta[baseKey].size else 0;
      data := data - {baseKey};
      meta := meta - {baseKey};
      lru := lru - {baseKey};
      if freed > 0 {
        size := size - freed;
      }
    }

    /** One turn: the script, and what is then left to free. */
    method EvictTurn(ghost goal: Cache, left: int) returns (freed: int, next: int)
      requires left > 0 && size - maxCacheSize <= left
      modifies this
      ensures next == left - freed && (freed != 0 ==> lru.Keys < old(lru).Keys && size - maxCacheSize <= next)
      ensures OnCourse(goal, old(Model()), left) ==>
                if freed == 0 then Model().(size := 0) == goal else OnCourse(goal, Model(), next)
    {
      ghost var before := Model();
      freed := EvictOldest();
      next := left - freed;
      if before.lru != map[] {
        ghost var o :| IsOldest(before.lru, o) && Model() == EvictKey(before, o) && freed == Declared(before, o);
        OneFewer(before.lru, o);
        if OnCourse(goal, before, left) {
          TurnStaysOnCourse(goal, before, left, o, next);
        }
      }
    }

    /** Turns until nothing is left to free, or until one frees nothing and the
        counter is reset. */
    method TakeTurns(ghost goal: Cache, sizeToFree: int)
      requires size - maxCacheSize <= sizeToFree
      modifies this
      ensures size <= maxCacheSize
      ensures OnCourse(goal, old(Model()), sizeToFree) ==> Model() == goal
    {
      var left := sizeToFree;
      while left > 0
        invariant size - maxCacheSize <= left
        invariant OnCourse(goal, old(Model()), sizeToFree) ==> OnCourse(goal, Model(), left)
        decreases lru.Keys
      {
        var freedBytes;
        freedBytes, left := EvictTurn(goal, left);
        if freedBytes == 0 {
          size := 0;
          return;
        }
      }
    }

    method EnforceEvictionPolicy()
      modifies this
      ensures size <= maxCacheSize
      ensures Indexed(old(Model())) ==> Model() == EvictLoop(old(Model()), Excess(old(Model()), maxCacheSize))
      ensures Accounted(old(Model())) ==> Accounted(Model()) && Model() == Enforce(old(Model()), maxCacheSize)
    {
      ghost var before := Model();
      var sizeToFree := size - maxCacheSize;
      ghost var goal := EvictLoop(before, sizeToFree);
      if Accounted(before) {
        AccountedEviction(before, maxCacheSize, sizeToFree);
      }
      if size <= maxCacheSize {
        return;
      }
      TakeTurns(goal, sizeToFree);
    }

    method DropVersion(baseKey: Key)
      modifies `meta, `data, `lru, `size
      ensures Model() == DropOne(old(Model()), baseKey)
    {
      lru := lru - {baseKey};
      if baseKey in meta {
        size := size - meta[baseKey].size;
      }
      meta := meta - {baseKey};
      data := data - {baseKey};
    }

    method DropVersions(versionKeys: set<Key>) returns (ghost order: seq<Key>)
      modifies `meta, `data, `lru, `size
      ensures Distinct(order) && ToSet(order) == versionKeys
      ensures Model() == DropEach(old(Model()), order)
    {
      var pending := versionKeys;
      order := [];
      while pending != {}
        invariant Distinct(order) && ToSet(order) !! pending
        invariant ToSet(order) + pending == versionKeys
        invariant Model() == DropEach(old(Model()), order)
        decreases pending
      {
        var baseKey :| baseKey in pending;
        Pushed(order, baseKey);
        DropPush(old(Model()), order, baseKey);
        DropVersion(baseKey);
        pending, order := pending - {baseKey}, order + [baseKey];
      }
    }

    method EvictFile(fileId: FileId)
      modifies this
      ensures Model() == CoreCache.EvictFile(old(Model()), fileId)
    {
      var versionKeys := KeysOf(keys, fileId);
      if versionKeys == {} {
        return;
      }
      ghost var order := DropVersions(versionKeys);
      current := current - {fileId};
      keys := keys - {fileId};
      PurgeIs(old(Model()), order, Model(), fileId, versionKeys);
    }
  }
}
