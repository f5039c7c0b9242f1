/** The control plane's cache: Redis hashes, strings, a scored LRU set and a size
    counter, with the eviction loop and its "reset to 0" escape. Each Redis
    pipeline and script is one atomic step; timestamps are passed in. */
module CoreCache {
  import opened Totals
  import opened LruBooks
  import opened CacheKeys

  datatype CacheMetadata = CacheMetadata(
    ownerId: string, contentType: string, size: int, checksum: string,
    etag: string, cacheControl: string, contentEncoding: string)

  datatype Cache = Cache(
    meta: map<Key, CacheMetadata>, data: map<Key, Bytes>, lru: map<Key, int>,
    size: int, keys: map<FileId, set<Key>>, current: map<FileId, string>)

  const EMPTY_CACHE := Cache(map[], map[], map[], 0, map[], map[])

  lemma SameCache(a: Cache, b: Cache)
    requires a.meta == b.meta && a.data == b.data && a.lru == b.lru
    requires a.size == b.size && a.keys == b.keys && a.current == b.current
    ensures a == b
  {
  }

  // ---- the operations on values ----

  /** The pipeline of `cacheFile`, before eviction. */
  function Write(c: Cache, k: Key, metadata: CacheMetadata, binary: Bytes, now: int): Cache {
    var previousSize := if k in c.data then |c.data[k]| else 0;
    Cache(c.meta[k := metadata], c.data[k := binary], c.lru[k := now],
          c.size + (|binary| - previousSize),
          c.keys[k.fileId := KeysOf(c.keys, k.fileId) + {k}], c.current)
  }

  function Lengths(data: map<Key, Bytes>): map<Key, int> {
    map k | k in data :: |data[k]|
  }

  /** What eviction leaves, said without a loop: the entries that do not fit the
      limit together with everything used since are gone, and the counter is what
      the survivors weigh. */
  ghost function Enforce(c: Cache, maxCacheSize: int): Cache {
    var gone := Victims(Lengths(c.data), c.lru, maxCacheSize);
    Cache(c.meta - gone, c.data - gone, c.lru - gone, Total(Lengths(c.data - gone)), c.keys, c.current)
  }

  function Touch(c: Cache, k: Key, now: int): Cache {
    if k in c.data then c.(lru := c.lru[k := now]) else c
  }

  function DeclaredSizes(meta: map<Key, CacheMetadata>): map<Key, int> {
    map k | k in meta :: meta[k].size
  }

  /** `evictFile`: every version key of the file goes, each refunding its recorded size. */
  ghost function EvictFile(c: Cache, fileId: FileId): Cache {
    var ks := KeysOf(c.keys, fileId);
    if ks == {} then c
    else Cache(c.meta - ks, c.data - ks, c.lru - ks, c.size - Total(Among(DeclaredSizes(c.meta), ks)),
               c.keys - {fileId}, c.current - {fileId})
  }

  // ---- the accounting invariant ----

  ghost predicate SizesRecorded(meta: map<Key, CacheMetadata>, data: map<Key, Bytes>) {
    meta.Keys == data.Keys && forall k :: k in meta ==> meta[k].size == |data[k]| > 0
  }

  /** Metadata, data and LRU have the same keys, the counter is the bytes held. */
  ghost predicate Accounted(c: Cache) {
    && c.data.Keys == c.lru.Keys && DistinctScores(c.lru)
    && SizesRecorded(c.meta, c.data)
    && Listed(c.data.Keys, c.keys)
    && c.size == Total(Lengths(c.data))
  }

  lemma LengthsMinus(data: map<Key, Bytes>, gone: set<Key>)
    ensures Lengths(data - gone) == Lengths(data) - gone
  {
  }

  lemma AccountedIsBooked(c: Cache)
    requires Accounted(c)
    ensures Booked(Lengths(c.data), c.lru)
  {
    assert forall k :: k in c.data ==> k in c.meta;
  }

  /** Dropping a set of keys from the three indexes keeps them in step. */
  lemma DropKeepsIndexes(c: Cache, gone: set<Key>)
    requires Accounted(c)
    ensures (c.data - gone).Keys == (c.lru - gone).Keys
    ensures DistinctScores(c.lru - gone)
    ensures SizesRecorded(c.meta - gone, c.data - gone)
    ensures Listed((c.data - gone).Keys, c.keys)
  {
    RemoveKeepsScores(c.lru, gone);
  }

  // ---- eviction ----

  /** Eviction keeps the books, brings the counter within the limit, and removes
      nothing when the cache is within it already. */
  lemma EvictionKeepsBooks(c: Cache, maxCacheSize: nat)
    requires Accounted(c)
    ensures Accounted(Enforce(c, maxCacheSize)) && Enforce(c, maxCacheSize).size <= maxCacheSize
  {
    var gone := Victims(Lengths(c.data), c.lru, maxCacheSize);
    AccountedIsBooked(c);
    SurvivorsFit(Lengths(c.data), c.lru, maxCacheSize);
    LengthsMinus(c.data, gone);
    DropKeepsIndexes(c, gone);
  }

  lemma WithinLimit(c: Cache, maxCacheSize: int)
    requires Accounted(c) && c.size <= maxCacheSize
    ensures Enforce(c, maxCacheSize) == c
  {
    AccountedIsBooked(c);
    NoVictims(Lengths(c.data), c.lru, maxCacheSize);
    RemoveNone(c.meta);
    RemoveNone(c.data);
    RemoveNone(c.lru);
  }

  /** The eviction script on a given victim: its recorded size is refunded if positive. */
  function EvictKey(c: Cache, k: Key): Cache {
    var freed := if k in c.meta then c.meta[k].size else 0;
    Cache(c.meta - {k}, c.data - {k}, c.lru - {k}, if freed > 0 then c.size - freed else c.size, c.keys, c.current)
  }

  /** Over the limit there is a victim, the script frees a positive number of bytes
      (so the counter is never reset to 0), and evicting the oldest entry leads to
      the same end as evicting all at once. */
  lemma EvictionTurn(c: Cache, o: Key, maxCacheSize: nat)
    requires Accounted(c) && c.size > maxCacheSize && IsOldest(c.lru, o)
    ensures o in c.meta && c.meta[o].size == |c.data[o]| > 0
    ensures Accounted(EvictKey(c, o))
    ensures Enforce(EvictKey(c, o), maxCacheSize) == Enforce(c, maxCacheSize)
  {
    var w := Lengths(c.data);
    var rest := Victims(w - {o}, c.lru - {o}, maxCacheSize);
    AccountedIsBooked(c);
    TotalRemove(w, o);
    LengthsMinus(c.data, {o});
    DropKeepsIndexes(c, {o});
    VictimsOldestFirst(w, c.lru, o, maxCacheSize);
    RemoveTwice(c.meta, {o}, rest);
    RemoveTwice(c.data, {o}, rest);
    RemoveTwice(c.lru, {o}, rest);
  }

  // ---- writing ----

  /** The books ask every entry to declare its length, so a write keeps them if and only
      if it does. What a wrong declaration costs later is the subject of `CacheDrift`. */
  lemma WriteAccountedIff(c: Cache, k: Key, metadata: CacheMetadata, binary: Bytes, now: int)
    requires Accounted(c) && Newer(c.lru, now)
    ensures Accounted(Write(c, k, metadata, binary, now)) <==> metadata.size == |binary| > 0
  {
    var c' := Write(c, k, metadata, binary, now);
    WriteKeepsIndexes(c, k, metadata, binary, now);
    assert c'.size == Total(Lengths(c'.data)) by { WriteTotals(c, k, binary); }
    assert SizesRecorded(c'.meta, c'.data) <==> metadata.size == |binary| > 0 by { WriteRecorded(c, k, metadata, binary); }
  }

  lemma WriteKeepsIndexes(c: Cache, k: Key, metadata: CacheMetadata, binary: Bytes, now: int)
    requires Accounted(c) && Newer(c.lru, now)
    ensures var c' := Write(c, k, metadata, binary, now);
            c'.data.Keys == c'.lru.Keys && DistinctScores(c'.lru) && Listed(c'.data.Keys, c'.keys)
  {
    TouchKeepsScores(c.lru, k, now);
    WriteListed(c.data.Keys, c.keys, k);
    UpdateKeys(c.data, k, binary);
    UpdateKeys(c.lru, k, now);
  }

  lemma WriteTotals(c: Cache, k: Key, binary: Bytes)
    ensures Total(Lengths(c.data[k := binary]))
            == Total(Lengths(c.data)) + (|binary| - if k in c.data then |c.data[k]| else 0)
  {
    TotalUpdate(Lengths(c.data), k, |binary|);
    assert Lengths(c.data[k := binary]) == Lengths(c.data)[k := |binary|];
  }

  lemma WriteRecorded(c: Cache, k: Key, metadata: CacheMetadata, binary: Bytes)
    requires SizesRecorded(c.meta, c.data)
    ensures SizesRecorded(c.meta[k := metadata], c.data[k := binary]) <==> metadata.size == |binary| > 0
  {
    assert k in c.meta[k := metadata];
  }

  /** An entry survives the eviction its own write triggers exactly when it fits the cache. */
  lemma WrittenEntrySurvivesIff(c: Cache, k: Key, metadata: CacheMetadata, binary: Bytes, now: int, maxCacheSize: nat)
    requires Accounted(c) && Newer(c.lru, now) && metadata.size == |binary| > 0
    ensures var c' := Enforce(Write(c, k, metadata, binary, now), maxCacheSize);
            && (k in c'.data <==> |binary| <= maxCacheSize)
            && (k in c'.data ==> c'.data[k] == binary)
  {
    var w := Write(c, k, metadata, binary, now);
    WriteAccountedIff(c, k, metadata, binary, now);
    RecentOfNewest(Lengths(w.data), w.lru, k);
  }

  // ---- purging a file ----

  /** A purge removes every version of the file, leaves every other entry alone and
      takes exactly the removed bytes off the counter. */
  lemma EvictFileAccounted(c: Cache, fileId: FileId)
    requires Accounted(c)
    ensures var c' := EvictFile(c, fileId);
            && Accounted(c') && c'.size <= c.size
            && (forall k :: k in c'.data <==> k in c.data && k.fileId != fileId)
            && (forall k :: k in c'.data ==> c'.data[k] == c.data[k])
  {
    PurgeListed(c.data.Keys, c.keys, fileId);
    assert (c.data - KeysOf(c.keys, fileId)).Keys == c.data.Keys - KeysOf(c.keys, fileId);
    if KeysOf(c.keys, fileId) != {} {
      DropKeepsIndexes(c, KeysOf(c.keys, fileId));
      PurgeTotals(c, KeysOf(c.keys, fileId));
    }
  }

  /** Nor do the indexes name the file any more, and every other file keeps what it has. */
  lemma PurgeLeavesNothing(c: Cache, fileId: FileId)
    requires KeysOf(c.keys, fileId) != {}
    ensures var c' := EvictFile(c, fileId);
            && fileId !in c'.keys && fileId !in c'.current
            && (forall f :: f in c.keys && f != fileId ==> f in c'.keys && c'.keys[f] == c.keys[f])
            && (forall f :: f in c.current && f != fileId ==> f in c'.current && c'.current[f] == c.current[f])
  {
  }

  lemma PurgeTotals(c: Cache, ks: set<Key>)
    requires Accounted(c)
    ensures c.size - Total(Among(DeclaredSizes(c.meta), ks)) == Total(Lengths(c.data - ks)) <= c.size
  {
    AccountedIsBooked(c);
    TotalSplit(Lengths(c.data), ks);
    LengthsMinus(c.data, ks);
    assert Among(DeclaredSizes(c.meta), ks) == Among(Lengths(c.data), ks);
    TotalMonotone(Lengths(c.data), Lengths(c.data) - ks);
  }

  // ---- every run ----

  datatype Op =
    | CacheFile(k: Key, metadata: CacheMetadata, binary: Bytes, at: int)
    | GetBinary(k: Key, at: int)
    | Purge(fileId: FileId, at: int)

  ghost function Apply(c: Cache, op: Op, maxCacheSize: int): Cache {
    match op
    case CacheFile(k, metadata, binary, at) => Enforce(Write(c, k, metadata, binary, at), maxCacheSize)
    case GetBinary(k, at) => Touch(c, k, at)
    case Purge(fileId, at) => EvictFile(c, fileId)
  }

  ghost function Run(ops: seq<Op>, maxCacheSize: int): Cache {
    if ops == [] then EMPTY_CACHE else Apply(Run(ops[..|ops| - 1], maxCacheSize), ops[|ops| - 1], maxCacheSize)
  }

  /** Callers stamp operations with a strictly increasing clock and declare true sizes. */
  ghost predicate WellFormed(ops: seq<Op>) {
    && (forall i, j :: 0 <= i < j < |ops| ==> ops[i].at < ops[j].at)
    && (forall i :: 0 <= i < |ops| && ops[i].CacheFile? ==> ops[i].metadata.size == |ops[i].binary| > 0)
  }

  ghost predicate StampedBy(lru: map<Key, int>, now: int) {
    forall k :: k in lru ==> lru[k] <= now
  }

  /** Over every run the counter equals the bytes held and stays within the limit,
      and the indexes agree. */
  lemma {:induction false} RunsStayAccounted(ops: seq<Op>, maxCacheSize: nat)
    requires WellFormed(ops)
    ensures Accounted(Run(ops, maxCacheSize)) && Run(ops, maxCacheSize).size <= maxCacheSize
    ensures ops != [] ==> StampedBy(Run(ops, maxCacheSize).lru, ops[|ops| - 1].at)
  {
    if ops == [] {
      TotalEmpty(Lengths(EMPTY_CACHE.data));
      assert ScoredBy(EMPTY_CACHE.lru, map[]);
    } else {
      var before, op := ops[..|ops| - 1], ops[|ops| - 1];
      assert forall i :: 0 <= i < |before| ==> before[i] == ops[i];
      RunsStayAccounted(before, maxCacheSize);
      ApplyStaysAccounted(Run(before, maxCacheSize), op, maxCacheSize);
    }
  }

  lemma ApplyStaysAccounted(c: Cache, op: Op, maxCacheSize: nat)
    requires Accounted(c) && c.size <= maxCacheSize && Newer(c.lru, op.at)
    requires op.CacheFile? ==> op.metadata.size == |op.binary| > 0
    ensures var c' := Apply(c, op, maxCacheSize);
            Accounted(c') && c'.size <= maxCacheSize && StampedBy(c'.lru, op.at)
  {
    match op
    case CacheFile(k, metadata, binary, at) =>
      WriteAccountedIff(c, k, metadata, binary, at);
      EvictionKeepsBooks(Write(c, k, metadata, binary, at), maxCacheSize);
    case GetBinary(k, at) =>
      TouchKeepsScores(c.lru, k, at);
    case Purge(fileId, at) =>
      EvictFileAccounted(c, fileId);
  }
}
