/** The edge's hybrid cache as a value: small entries live in Redis memory, large
    ones in a file on disk, and metadata says which. Overwrites and evictions
    leave stale copies behind on the other tier; the model keeps them. */
module EdgeCache {
  import opened Options
  import opened Totals
  import opened LruBooks
  import opened CacheKeys

  /** `<root>/<fileId>/v<version>/content.bin` */
  datatype DiskPath = ContentBin(fileId: FileId, version: string)

  datatype EdgeMetadata = EdgeMetadata(contentType: string, size: int, checksum: string, etag: string,
                                       isDiskBacked: bool, diskPath: Option<DiskPath>)

  datatype Cache = Cache(
    meta: map<Key, EdgeMetadata>, ram: map<Key, Bytes>, disk: map<DiskPath, Bytes>, lru: map<Key, int>,
    size: int, keys: map<FileId, set<Key>>, current: map<FileId, string>)

  const EMPTY_EDGE := Cache(map[], map[], map[], map[], 0, map[], map[])

  lemma SameEdge(a: Cache, b: Cache)
    requires a.meta == b.meta && a.ram == b.ram && a.disk == b.disk && a.lru == b.lru
    requires a.size == b.size && a.keys == b.keys && a.current == b.current
    ensures a == b
  {
  }

  function PathOf(k: Key): DiskPath {
    ContentBin(k.fileId, k.version)
  }

  /** What a write adds to `cache:size`: its length in memory, a tenth of it on disk. */
  function Charge(length: nat, threshold: nat): nat {
    if length >= threshold then length / 10 else length
  }

  /** `cacheFile` before eviction. */
  function Write(c: Cache, k: Key, metadata: EdgeMetadata, binary: Bytes, now: int, threshold: nat): Cache {
    var isLarge := |binary| >= threshold;
    Cache(c.meta[k := metadata.(isDiskBacked := isLarge, diskPath := if isLarge then Some(PathOf(k)) else None)],
          if isLarge then c.ram else c.ram[k := binary],
          if isLarge then c.disk[PathOf(k) := binary] else c.disk,
          c.lru[k := now],
          c.size + Charge(|binary|, threshold),
          c.keys[k.fileId := KeysOf(c.keys, k.fileId) + {k}],
          c.current)
  }

  /** What eviction does to the entries it drops; files on disk stay behind. */
  function Forget(c: Cache, gone: set<Key>, size: int): Cache {
    Cache(c.meta - gone, c.ram - gone, c.disk, c.lru - gone, size, c.keys, c.current)
  }

  /** `getBinary`: the disk copy if metadata points at one that can be read,
      otherwise whatever memory holds. */
  function Read(c: Cache, k: Key, diskReadable: bool): Option<Bytes> {
    if k in c.meta && c.meta[k].isDiskBacked && c.meta[k].diskPath.Some? && diskReadable && c.meta[k].diskPath.value in c.disk
    then Some(c.disk[c.meta[k].diskPath.value])
    else if k in c.ram then Some(c.ram[k])
    else None
  }

  /** A read renews the entry's score if it finds something. */
  function Touch(c: Cache, k: Key, now: int, diskReadable: bool): Cache {
    if Read(c, k, diskReadable).Some? then c.(lru := c.lru[k := now]) else c
  }

  function DeclaredSizes(meta: map<Key, EdgeMetadata>): map<Key, int> {
    map k | k in meta :: meta[k].size
  }

  function WithoutFile(disk: map<DiskPath, Bytes>, fileId: FileId): map<DiskPath, Bytes> {
    map p | p in disk && p.fileId != fileId :: disk[p]
  }

  /** What a purge does to the listed version keys. */
  ghost function DropVersions(c: Cache, ks: set<Key>): Cache {
    Cache(c.meta - ks, c.ram - ks, c.disk, c.lru - ks, c.size - Total(Among(DeclaredSizes(c.meta), ks)), c.keys, c.current)
  }

  /** What a purge does to the file itself. */
  function ForgetFile(c: Cache, fileId: FileId): Cache {
    c.(disk := WithoutFile(c.disk, fileId), keys := c.keys - {fileId}, current := c.current - {fileId})
  }

  ghost function EvictFile(c: Cache, fileId: FileId): Cache {
    var ks := KeysOf(c.keys, fileId);
    if ks == {} then c else ForgetFile(DropVersions(c, ks), fileId)
  }

  // ---- the plain map behind the two tiers ----

  /** Metadata points at a live copy, nothing is in memory without metadata, and
      every live key is listed for purging. */
  ghost predicate Coherent(c: Cache) {
    && c.meta.Keys == c.lru.Keys
    && (forall k :: k in c.meta ==>
          if c.meta[k].isDiskBacked then c.meta[k].diskPath == Some(PathOf(k)) && PathOf(k) in c.disk else k in c.ram)
    && (forall k :: k in c.ram ==> k in c.meta)
    && Listed(c.meta.Keys, c.keys)
  }

  /** What a reader with a working disk finds under each key. */
  ghost function Contents(c: Cache): map<Key, Bytes> {
    map k | k in c.meta.Keys + c.ram.Keys && Read(c, k, true).Some? :: Read(c, k, true).value
  }

  function Lookup(m: map<Key, Bytes>, k: Key): Option<Bytes> {
    if k in m then Some(m[k]) else None
  }

  lemma ReadIsLookup(c: Cache, k: Key)
    ensures Read(c, k, true) == Lookup(Contents(c), k)
  {
  }

  lemma SameContents(c: Cache, m: map<Key, Bytes>)
    requires forall k :: Read(c, k, true) == Lookup(m, k)
    ensures Contents(c) == m
  {
    forall k ensures k in Contents(c) <==> k in m {
      assert Read(c, k, true) == Lookup(m, k);
    }
    forall k | k in m ensures Contents(c)[k] == m[k] {
      assert Read(c, k, true) == Lookup(m, k);
    }
  }

  lemma WriteContents(c: Cache, k: Key, metadata: EdgeMetadata, binary: Bytes, now: int, threshold: nat)
    requires Coherent(c)
    ensures Contents(Write(c, k, metadata, binary, now, threshold)) == Contents(c)[k := binary]
  {
    var c' := Write(c, k, metadata, binary, now, threshold);
    forall j ensures Read(c', j, true) == Lookup(Contents(c)[k := binary], j) {
      ReadIsLookup(c, j);
    }
    SameContents(c', Contents(c)[k := binary]);
  }

  lemma WriteCoherent(c: Cache, k: Key, metadata: EdgeMetadata, binary: Bytes, now: int, threshold: nat)
    requires Coherent(c)
    ensures Coherent(Write(c, k, metadata, binary, now, threshold))
  {
    var c' := Write(c, k, metadata, binary, now, threshold);
    WriteListed(c.meta.Keys, c.keys, k);
    UpdateKeys(c.meta, k, c'.meta[k]);
    UpdateKeys(c.lru, k, now);
  }

  lemma ForgetContents(c: Cache, gone: set<Key>, size: int)
    requires Coherent(c)
    ensures Contents(Forget(c, gone, size)) == Contents(c) - gone
  {
    var c' := Forget(c, gone, size);
    forall j ensures Read(c', j, true) == Lookup(Contents(c) - gone, j) {
      ReadIsLookup(c, j);
    }
    SameContents(c', Contents(c) - gone);
  }

  lemma ForgetCoherent(c: Cache, gone: set<Key>, size: int)
    requires Coherent(c)
    ensures Coherent(Forget(c, gone, size))
  {
  }

  lemma TouchContents(c: Cache, k: Key, now: int, diskReadable: bool)
    requires Coherent(c)
    ensures Contents(Touch(c, k, now, diskReadable)) == Contents(c)
    ensures Coherent(Touch(c, k, now, diskReadable))
  {
    var c' := Touch(c, k, now, diskReadable);
    forall j ensures Read(c', j, true) == Lookup(Contents(c), j) {
      ReadIsLookup(c, j);
    }
    SameContents(c', Contents(c));
    if Read(c, k, diskReadable).Some? {
      UpdateKeys(c.lru, k, now);
    }
  }

  function MapWithoutFile(m: map<Key, Bytes>, fileId: FileId): map<Key, Bytes> {
    map k | k in m && k.fileId != fileId :: m[k]
  }

  /** One key before and after a purge. */
  lemma EvictFileReads(c: Cache, fileId: FileId, j: Key)
    requires Coherent(c)
    ensures Read(EvictFile(c, fileId), j, true) == if j.fileId == fileId then None else Read(c, j, true)
  {
    var ks := KeysOf(c.keys, fileId);
    PurgeListed(c.meta.Keys, c.keys, fileId);
    assert j in ks ==> j.fileId == fileId;
    assert j in c.meta.Keys && j.fileId == fileId ==> j in ks;
    if ks != {} {
      PurgedRead(c, fileId, ks, j);
    }
  }

  lemma PurgedRead(c: Cache, fileId: FileId, ks: set<Key>, j: Key)
    requires Coherent(c) && (j in ks ==> j.fileId == fileId) && (j in c.meta && j.fileId == fileId ==> j in ks)
    ensures Read(ForgetFile(DropVersions(c, ks), fileId), j, true) == if j.fileId == fileId then None else Read(c, j, true)
  {
    assert j in c.ram ==> j in c.meta;
  }

  lemma EvictFileContents(c: Cache, fileId: FileId)
    requires Coherent(c)
    ensures Contents(EvictFile(c, fileId)) == MapWithoutFile(Contents(c), fileId)
  {
    forall j ensures Read(EvictFile(c, fileId), j, true) == Lookup(MapWithoutFile(Contents(c), fileId), j) {
      EvictFileReads(c, fileId, j);
      ReadIsLookup(c, j);
    }
    SameContents(EvictFile(c, fileId), MapWithoutFile(Contents(c), fileId));
  }

  /** Of the file itself nothing stays behind, on disk or in the indexes, and every other
      file keeps what it has. */
  lemma PurgeLeavesNothing(c: Cache, fileId: FileId)
    requires KeysOf(c.keys, fileId) != {}
    ensures var c' := EvictFile(c, fileId);
            && fileId !in c'.keys && fileId !in c'.current
            && (forall p :: p in c'.disk <==> p in c.disk && p.fileId != fileId)
            && (forall p :: p in c'.disk ==> c'.disk[p] == c.disk[p])
            && (forall f :: f in c.keys && f != fileId ==> f in c'.keys && c'.keys[f] == c.keys[f])
            && (forall f :: f in c.current && f != fileId ==> f in c'.current && c'.current[f] == c.current[f])
  {
  }

  lemma EvictFileCoherent(c: Cache, fileId: FileId)
    requires Coherent(c)
    ensures Coherent(EvictFile(c, fileId))
  {
    var ks := KeysOf(c.keys, fileId);
    PurgeListed(c.meta.Keys, c.keys, fileId);
    assert (c.meta - ks).Keys == c.meta.Keys - ks;
  }

  // ---- every run against a plain map ----

  /** One call and, for a write, the keys its eviction dropped. */
  datatype Event =
    | CacheFile(k: Key, metadata: EdgeMetadata, binary: Bytes, at: int, evicted: set<Key>, sizeAfter: int)
    | GetBinary(k: Key, at: int, diskReadable: bool)
    | Purge(fileId: FileId)

  ghost function Apply(c: Cache, e: Event, threshold: nat): Cache {
    match e
    case CacheFile(k, metadata, binary, at, evicted, sizeAfter) =>
      Forget(Write(c, k, metadata, binary, at, threshold), evicted, sizeAfter)
    case GetBinary(k, at, diskReadable) => Touch(c, k, at, diskReadable)
    case Purge(fileId) => EvictFile(c, fileId)
  }

  ghost function Run(es: seq<Event>, threshold: nat): Cache {
    if es == [] then EMPTY_EDGE else Apply(Run(es[..|es| - 1], threshold), es[|es| - 1], threshold)
  }

  /** The same events on a single map from key to last cached bytes. */
  function PlainApply(m: map<Key, Bytes>, e: Event): map<Key, Bytes> {
    match e
    case CacheFile(k, _, binary, _, evicted, _) => m[k := binary] - evicted
    case GetBinary(_, _, _) => m
    case Purge(fileId) => MapWithoutFile(m, fileId)
  }

  function PlainRun(es: seq<Event>): map<Key, Bytes> {
    if es == [] then map[] else PlainApply(PlainRun(es[..|es| - 1]), es[|es| - 1])
  }

  /** Two-tier refinement: after any sequence of small and large writes, overwrites,
      evictions, reads and purges, `getBinary` answers every key as the plain map does. */
  lemma {:induction false} TwoTiersRefinePlainMap(es: seq<Event>, threshold: nat)
    ensures Coherent(Run(es, threshold))
    ensures Contents(Run(es, threshold)) == PlainRun(es)
    ensures forall k :: Read(Run(es, threshold), k, true) == Lookup(PlainRun(es), k)
  {
    if es != [] {
      var c, e := Run(es[..|es| - 1], threshold), es[|es| - 1];
      TwoTiersRefinePlainMap(es[..|es| - 1], threshold);
      ApplyRefines(c, e, threshold);
    }
    forall k ensures Read(Run(es, threshold), k, true) == Lookup(PlainRun(es), k) {
      ReadIsLookup(Run(es, threshold), k);
    }
  }

  lemma ApplyRefines(c: Cache, e: Event, threshold: nat)
    requires Coherent(c)
    ensures Coherent(Apply(c, e, threshold))
    ensures Contents(Apply(c, e, threshold)) == PlainApply(Contents(c), e)
  {
    match e
    case CacheFile(k, metadata, binary, at, evicted, sizeAfter) =>
      WriteCoherent(c, k, metadata, binary, at, threshold);
      WriteContents(c, k, metadata, binary, at, threshold);
      ForgetContents(Write(c, k, metadata, binary, at, threshold), evicted, sizeAfter);
      ForgetCoherent(Write(c, k, metadata, binary, at, threshold), evicted, sizeAfter);
    case GetBinary(k, at, diskReadable) =>
      TouchContents(c, k, at, diskReadable);
    case Purge(fileId) =>
      EvictFileCoherent(c, fileId);
      EvictFileContents(c, fileId);
  }

  // ---- where the tiers show ----

  /** The entry is on disk while memory still holds other bytes for it. */
  ghost predicate Superseded(c: Cache, k: Key) {
    OnDisk(c, k) && k in c.ram && k in Contents(c) && c.ram[k] != Contents(c)[k]
  }

  /** In every coherent cache: with an unreadable disk `getBinary` serves superseded bytes
      if and only if the entry is on disk and memory holds other bytes for it. */
  lemma ServesStaleIff(c: Cache, k: Key)
    requires Coherent(c)
    ensures Read(c, k, false).None? || Read(c, k, false) == Read(c, k, true) <==> !Superseded(c, k)
  {
    ReadIsLookup(c, k);
  }

  function LargeAfter(e: Event, k: Key, threshold: nat, before: bool): bool {
    match e
    case CacheFile(j, _, binary, _, evicted, _) => k !in evicted && if j == k then |binary| >= threshold else before
    case GetBinary(_, _, _) => before
    case Purge(fileId) => k.fileId != fileId && before
  }

  function SmallAfter(e: Event, k: Key, threshold: nat, before: Option<Bytes>): Option<Bytes> {
    match e
    case CacheFile(j, _, binary, _, evicted, _) =>
      if k in evicted then None else if j == k && |binary| < threshold then Some(binary) else before
    case GetBinary(_, _, _) => before
    case Purge(fileId) => if k.fileId == fileId then None else before
  }

  /** Whether the last write of `k` since it was last evicted or purged was a large one. */
  function LastLarge(es: seq<Event>, k: Key, threshold: nat): bool {
    es != [] && LargeAfter(es[|es| - 1], k, threshold, LastLarge(es[..|es| - 1], k, threshold))
  }

  /** The bytes of the last small write of `k` since it was last evicted or purged. */
  function LastSmall(es: seq<Event>, k: Key, threshold: nat): Option<Bytes> {
    if es == [] then None
    else SmallAfter(es[|es| - 1], k, threshold, LastSmall(es[..|es| - 1], k, threshold))
  }

  function InMemory(c: Cache, k: Key): Option<Bytes> {
    if k in c.ram then Some(c.ram[k]) else None
  }

  predicate OnDisk(c: Cache, k: Key) {
    k in c.meta && c.meta[k].isDiskBacked
  }

  lemma PurgedTiers(c: Cache, fileId: FileId, k: Key)
    requires Coherent(c)
    ensures InMemory(EvictFile(c, fileId), k) == if k.fileId == fileId then None else InMemory(c, k)
    ensures OnDisk(EvictFile(c, fileId), k) <==> k.fileId != fileId && OnDisk(c, k)
  {
    PurgeListed(c.meta.Keys, c.keys, fileId);
    assert k in c.meta.Keys ==> (k in KeysOf(c.keys, fileId) <==> k.fileId == fileId);
    assert k in KeysOf(c.keys, fileId) ==> k.fileId == fileId;
  }

  lemma TierStep(c: Cache, e: Event, k: Key, threshold: nat)
    requires Coherent(c)
    ensures InMemory(Apply(c, e, threshold), k) == SmallAfter(e, k, threshold, InMemory(c, k))
    ensures OnDisk(Apply(c, e, threshold), k) == LargeAfter(e, k, threshold, OnDisk(c, k))
  {
    if e.Purge? {
      PurgedTiers(c, e.fileId, k);
    }
  }

  /** The two tiers of a run, one key at a time: memory holds the last small write, and
      metadata points at the disk when the last write was large. */
  lemma {:induction false} TiersOfRun(es: seq<Event>, k: Key, threshold: nat)
    ensures InMemory(Run(es, threshold), k) == LastSmall(es, k, threshold)
    ensures OnDisk(Run(es, threshold), k) == LastLarge(es, k, threshold)
  {
    if es != [] {
      var front, e := es[..|es| - 1], es[|es| - 1];
      TiersOfRun(front, k, threshold);
      TwoTiersRefinePlainMap(front, threshold);
      TierStep(Run(front, threshold), e, k, threshold);
    }
  }

  /** What any run serves when the disk cannot be read: the last small write of the
      entry, whether or not a large one came after it. */
  lemma UnreadableDiskServes(es: seq<Event>, k: Key, threshold: nat)
    ensures Read(Run(es, threshold), k, false) == LastSmall(es, k, threshold)
  {
    TiersOfRun(es, k, threshold);
  }

  /** So after any run superseded bytes are served if and only if, since the entry was
      last evicted or purged, a small write with other bytes preceded the last write and
      that one was large. */
  lemma RunServesStaleIff(es: seq<Event>, k: Key, threshold: nat)
    ensures Read(Run(es, threshold), k, false).Some? && Read(Run(es, threshold), k, false) != Read(Run(es, threshold), k, true)
            <==> LastLarge(es, k, threshold) && LastSmall(es, k, threshold).Some? &&
                 LastSmall(es, k, threshold) != Lookup(PlainRun(es), k)
  {
    TiersOfRun(es, k, threshold);
    TwoTiersRefinePlainMap(es, threshold);
  }

  /** The shortest such run: a small entry overwritten by a large one. */
  lemma UnreadableDiskServesStaleBytes(k: Key, metadata: EdgeMetadata, small: Bytes, large: Bytes, threshold: nat)
    requires |small| < threshold <= |large|
    ensures var es := [CacheFile(k, metadata, small, 1, {}, |small|),
                       CacheFile(k, metadata, large, 2, {}, |small| + |large| / 10)];
            && Read(Run(es, threshold), k, true) == Some(large)
            && Read(Run(es, threshold), k, false) == Some(small)
  {
    var first := CacheFile(k, metadata, small, 1, {}, |small|);
    var second := CacheFile(k, metadata, large, 2, {}, |small| + |large| / 10);
    assert [first, second] == [] + [first] + [second];
    RunSnoc([], first, threshold);
    RunSnoc([] + [first], second, threshold);
  }

  lemma RunSnoc(es: seq<Event>, e: Event, threshold: nat)
    ensures Run(es + [e], threshold) == Apply(Run(es, threshold), e, threshold)
  {
    assert (es + [e])[..|es + [e]| - 1] == es;
  }

  /** Writing a new file's entry and purging the file gives the counter back what it
      took if and only if the declared size is what the write charged. */
  lemma WriteThenPurgeBalancesIff(c: Cache, k: Key, metadata: EdgeMetadata, binary: Bytes, now: int, threshold: nat)
    requires Coherent(c) && KeysOf(c.keys, k.fileId) == {}
    ensures EvictFile(Write(c, k, metadata, binary, now, threshold), k.fileId).size == c.size
            <==> metadata.size == if |binary| >= threshold then |binary| / 10 else |binary|
  {
    var w := Write(c, k, metadata, binary, now, threshold);
    assert KeysOf(w.keys, k.fileId) == {k};
    PurgeOne(w, k);
  }

  lemma PurgeOne(c: Cache, k: Key)
    requires KeysOf(c.keys, k.fileId) == {k} && k in c.meta
    ensures EvictFile(c, k.fileId).size == c.size - c.meta[k].size
  {
    var refunds := Among(DeclaredSizes(c.meta), {k});
    assert k in refunds && forall j :: j in refunds ==> j == k;
    TotalRemove(refunds, k);
    TotalEmpty(refunds - {k});
  }
}
