/** The edge's cache and recency: what its scores and its metadata are, said on the list
    of events alone. */
module EdgeRecency {
  import opened Options
  import opened Totals
  import opened LruBooks
  import opened CacheKeys
  import opened EdgeCache
  import EdgeCacheService

  /** The last event writes the entry, or reads it and finds a copy: any read with a
      working disk does, of an entry that is cached, and one without it does if a small
      write is still in memory. */
  predicate Uses(es: seq<Event>, k: Key, threshold: nat)
    requires es != []
  {
    match es[|es| - 1]
    case CacheFile(j, _, _, _, _, _) => j == k
    case GetBinary(j, _, readable) => j == k && (readable || LastSmall(es[..|es| - 1], k, threshold).Some?)
    case Purge(_) => false
  }

  /** When the entry was last written or found. */
  function LastUse(es: seq<Event>, k: Key, threshold: nat): Option<int> {
    if es == [] then None
    else if Uses(es, k, threshold) then Some(es[|es| - 1].at)
    else LastUse(es[..|es| - 1], k, threshold)
  }

  /** What was last written under the key: its metadata and its bytes. */
  function LastWrite(es: seq<Event>, k: Key): Option<(EdgeMetadata, Bytes)> {
    if es == [] then None
    else
      var e := es[|es| - 1];
      if e.CacheFile? && e.k == k then Some((e.metadata, e.binary)) else LastWrite(es[..|es| - 1], k)
  }

  /** The metadata stored for a write: what was given, and where the bytes went. */
  predicate Describes(m: EdgeMetadata, k: Key, given: EdgeMetadata, binary: Bytes, threshold: nat) {
    && m.contentType == given.contentType && m.size == given.size
    && m.checksum == given.checksum && m.etag == given.etag
    && m.isDiskBacked == (|binary| >= threshold)
    && m.diskPath == if |binary| >= threshold then Some(ContentBin(k.fileId, k.version)) else None
  }

  ghost predicate Scored(c: Cache, es: seq<Event>, threshold: nat) {
    forall k :: k in c.lru ==> LastUse(es, k, threshold) == Some(c.lru[k])
  }

  ghost predicate Described(c: Cache, es: seq<Event>, threshold: nat) {
    forall k :: k in c.meta ==>
      LastWrite(es, k).Some? && Describes(c.meta[k], k, LastWrite(es, k).value.0, LastWrite(es, k).value.1, threshold)
  }

  lemma ApplyScores(c: Cache, es: seq<Event>, threshold: nat)
    requires es != [] && Coherent(c) && Scored(c, es[..|es| - 1], threshold)
    requires forall k :: InMemory(c, k) == LastSmall(es[..|es| - 1], k, threshold)
    ensures Scored(Apply(c, es[|es| - 1], threshold), es, threshold)
  {
    var e, c' := es[|es| - 1], Apply(c, es[|es| - 1], threshold);
    forall k | k in c'.lru
      ensures LastUse(es, k, threshold) == Some(c'.lru[k])
    {
      assert InMemory(c, k) == LastSmall(es[..|es| - 1], k, threshold);
      assert e.GetBinary? && k in c.lru ==> k in c.meta.Keys;
    }
  }

  lemma ApplyDescribes(c: Cache, es: seq<Event>, threshold: nat)
    requires es != [] && Described(c, es[..|es| - 1], threshold)
    ensures Described(Apply(c, es[|es| - 1], threshold), es, threshold)
  {
  }

  /** In every run each entry's score is the time of its last write or hit, and its
      metadata describes what was last written. */
  lemma {:induction false} ScoresAreLastUses(es: seq<Event>, threshold: nat)
    ensures Scored(Run(es, threshold), es, threshold) && Described(Run(es, threshold), es, threshold)
  {
    if es != [] {
      var front := es[..|es| - 1];
      ScoresAreLastUses(front, threshold);
      TwoTiersRefinePlainMap(front, threshold);
      forall k ensures InMemory(Run(front, threshold), k) == LastSmall(front, k, threshold) {
        TiersOfRun(front, k, threshold);
      }
      ApplyScores(Run(front, threshold), es, threshold);
      ApplyDescribes(Run(front, threshold), es, threshold);
    }
  }

  /** The cache a write leaves before its eviction. */
  ghost function Written(es: seq<Event>, threshold: nat): Cache
    requires es != [] && es[|es| - 1].CacheFile?
  {
    var e := es[|es| - 1];
    Write(Run(es[..|es| - 1], threshold), e.k, e.metadata, e.binary, e.at, threshold)
  }

  /** A write whose eviction went as the service's does, whatever the sizes declared: if
      it left an entry, it left every one last used after it. */
  lemma OlderGoesFirst(es: seq<Event>, threshold: nat, limit: nat, older: Key, newer: Key)
    requires es != [] && es[|es| - 1].CacheFile?
    requires EdgeCacheService.Evicted(Written(es, threshold), Run(es, threshold), limit)
    requires older in Written(es, threshold).lru && newer in Written(es, threshold).lru
    ensures LastUse(es, older, threshold).Some? && LastUse(es, newer, threshold).Some?
    ensures LastUse(es, older, threshold).value < LastUse(es, newer, threshold).value && older in Run(es, threshold).lru ==>
              newer in Run(es, threshold).lru
  {
    ScoresAreLastUses(es[..|es| - 1], threshold);
    WrittenScores(es, threshold, older);
    WrittenScores(es, threshold, newer);
    var w, c' := Written(es, threshold), Run(es, threshold);
    var gone :| EdgeCacheService.Dropping(w, c', gone);
    assert newer in gone && w.lru[older] < w.lru[newer] ==> older in gone;
  }

  lemma WrittenScores(es: seq<Event>, threshold: nat, k: Key)
    requires es != [] && es[|es| - 1].CacheFile?
    requires Scored(Run(es[..|es| - 1], threshold), es[..|es| - 1], threshold) && k in Written(es, threshold).lru
    ensures LastUse(es, k, threshold) == Some(Written(es, threshold).lru[k])
  {
  }
}
