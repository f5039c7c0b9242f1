/** The control plane's cache against a plain least-recently-used map that is defined on
    the list of operations alone: no scores, no counter, no loop. */
module CoreRecency {
  import opened Options
  import opened Totals
  import opened LruBooks
  import opened CacheKeys
  import opened CoreCache

  /** The operation writes the entry or asks for it. */
  predicate Names(op: Op, k: Key) {
    (op.CacheFile? || op.GetBinary?) && op.k == k
  }

  /** When the entry was last written or asked for. For an entry that is cached now it was
      there at every request since its last write, so that is its last write or hit. */
  function LastUse(ops: seq<Op>, k: Key): Option<int> {
    if ops == [] then None
    else if Names(ops[|ops| - 1], k) then Some(ops[|ops| - 1].at)
    else LastUse(ops[..|ops| - 1], k)
  }

  /** What was last written under the key. */
  function LastMetadata(ops: seq<Op>, k: Key): Option<CacheMetadata> {
    if ops == [] then None
    else
      var op := ops[|ops| - 1];
      if op.CacheFile? && op.k == k then Some(op.metadata) else LastMetadata(ops[..|ops| - 1], k)
  }

  predicate NotBefore(a: Option<int>, b: Option<int>) {
    a.Some? && b.Some? && a.value >= b.value
  }

  /** The lengths of the entry and of everything used since it was. */
  ghost function UsedSince(ops: seq<Op>, held: map<Key, Bytes>, k: Key): map<Key, int> {
    map j | j in held && NotBefore(LastUse(ops, j), LastUse(ops, k)) :: |held[j]|
  }

  /** The entries that fit the limit together with everything used since they were. */
  ghost function Kept(ops: seq<Op>, held: map<Key, Bytes>, limit: nat): map<Key, Bytes> {
    map k | k in held && Total(UsedSince(ops, held, k)) <= limit :: held[k]
  }

  /** The plain map: a write keeps the entries that fit the limit together with
      everything used since, a read changes nothing, and a purge drops the file. */
  ghost function Contents(ops: seq<Op>, limit: nat): map<Key, Bytes> {
    if ops == [] then map[]
    else
      var before := Contents(ops[..|ops| - 1], limit);
      match ops[|ops| - 1]
      case CacheFile(k, _, binary, _) => Kept(ops, before[k := binary], limit)
      case GetBinary(_, _) => before
      case Purge(fileId, _) => map j | j in before && j.fileId != fileId :: before[j]
  }

  /** Scores are last uses and metadata is what was last written. */
  ghost predicate Recorded(c: Cache, ops: seq<Op>) {
    && (forall k :: k in c.lru ==> LastUse(ops, k) == Some(c.lru[k]))
    && (forall k :: k in c.meta ==> LastMetadata(ops, k) == Some(c.meta[k]))
  }

  lemma FrontIsWellFormed(ops: seq<Op>)
    requires WellFormed(ops) && ops != []
    ensures WellFormed(ops[..|ops| - 1])
  {
  }

  lemma WriteRecords(c: Cache, ops: seq<Op>)
    requires ops != [] && ops[|ops| - 1].CacheFile? && Recorded(c, ops[..|ops| - 1])
    ensures var op := ops[|ops| - 1]; Recorded(Write(c, op.k, op.metadata, op.binary, op.at), ops)
  {
  }

  lemma LessIsRecorded(c: Cache, c': Cache, ops: seq<Op>, gone: set<Key>)
    requires Recorded(c, ops) && c'.lru == c.lru - gone && c'.meta == c.meta - gone
    ensures Recorded(c', ops)
  {
  }

  lemma ApplyRecords(c: Cache, ops: seq<Op>, limit: nat)
    requires ops != [] && Recorded(c, ops[..|ops| - 1]) && c.data.Keys == c.lru.Keys
    ensures Recorded(Apply(c, ops[|ops| - 1], limit), ops)
  {
    match ops[|ops| - 1]
    case CacheFile(k, metadata, binary, at) =>
      var w := Write(c, k, metadata, binary, at);
      WriteRecords(c, ops);
      LessIsRecorded(w, Enforce(w, limit), ops, Victims(Lengths(w.data), w.lru, limit));
    case GetBinary(k, at) =>
    case Purge(fileId, at) =>
  }

  /** In every run each cached entry's score is the time of its last write or hit, and its
      metadata is what was last written. */
  lemma {:induction false} ScoresAreLastUses(ops: seq<Op>, limit: nat)
    requires WellFormed(ops)
    ensures Recorded(Run(ops, limit), ops)
  {
    if ops != [] {
      var front := ops[..|ops| - 1];
      FrontIsWellFormed(ops);
      ScoresAreLastUses(front, limit);
      RunsStayAccounted(front, limit);
      ApplyRecords(Run(front, limit), ops, limit);
    }
  }

  /** The books of recency and the operation list name the same entries. */
  lemma RecentIsUsedSince(c: Cache, ops: seq<Op>, k: Key)
    requires Recorded(c, ops) && c.data.Keys == c.lru.Keys && k in c.lru
    ensures Recent(Lengths(c.data), c.lru, k) == UsedSince(ops, c.data, k)
  {
  }

  lemma VictimsAreUnkept(c: Cache, ops: seq<Op>, limit: nat, k: Key)
    requires Recorded(c, ops) && c.data.Keys == c.lru.Keys && k in c.lru
    ensures k in Victims(Lengths(c.data), c.lru, limit) <==> k !in Kept(ops, c.data, limit)
  {
    RecentIsUsedSince(c, ops, k);
  }

  lemma RestIs<V>(m: map<Key, V>, gone: set<Key>, kept: map<Key, V>)
    requires forall k :: k in kept ==> k in m && kept[k] == m[k]
    requires forall k :: k in m ==> (k in gone <==> k !in kept)
    ensures m - gone == kept
  {
  }

  lemma EnforceKeeps(c: Cache, ops: seq<Op>, limit: nat)
    requires Recorded(c, ops) && c.data.Keys == c.lru.Keys
    ensures Enforce(c, limit).data == Kept(ops, c.data, limit)
  {
    KeptRest(c, ops, limit, Victims(Lengths(c.data), c.lru, limit), Kept(ops, c.data, limit));
  }

  lemma KeptRest(c: Cache, ops: seq<Op>, limit: nat, gone: set<Key>, kept: map<Key, Bytes>)
    requires Recorded(c, ops) && c.data.Keys == c.lru.Keys
    requires gone == Victims(Lengths(c.data), c.lru, limit) && kept == Kept(ops, c.data, limit)
    ensures c.data - gone == kept
  {
    forall k | k in c.data
      ensures k in gone <==> k !in kept
    {
      VictimsAreUnkept(c, ops, limit, k);
    }
    RestIs(c.data, gone, kept);
  }

  lemma WriteContents(c: Cache, ops: seq<Op>, limit: nat)
    requires ops != [] && ops[|ops| - 1].CacheFile? && Recorded(c, ops[..|ops| - 1])
    requires c.data.Keys == c.lru.Keys && c.data == Contents(ops[..|ops| - 1], limit)
    ensures var op := ops[|ops| - 1];
            Enforce(Write(c, op.k, op.metadata, op.binary, op.at), limit).data == Contents(ops, limit)
  {
    var op := ops[|ops| - 1];
    WriteRecords(c, ops);
    UpdateKeys(c.data, op.k, op.binary);
    UpdateKeys(c.lru, op.k, op.at);
    EnforceKeeps(Write(c, op.k, op.metadata, op.binary, op.at), ops, limit);
  }

  lemma PurgeContents(c: Cache, ops: seq<Op>, limit: nat)
    requires ops != [] && ops[|ops| - 1].Purge? && Accounted(c) && c.data == Contents(ops[..|ops| - 1], limit)
    ensures EvictFile(c, ops[|ops| - 1].fileId).data == Contents(ops, limit)
  {
    EvictFileAccounted(c, ops[|ops| - 1].fileId);
  }

  lemma ApplyContents(c: Cache, ops: seq<Op>, limit: nat)
    requires ops != [] && Recorded(c, ops[..|ops| - 1]) && Accounted(c) && c.data == Contents(ops[..|ops| - 1], limit)
    ensures Apply(c, ops[|ops| - 1], limit).data == Contents(ops, limit)
  {
    if ops[|ops| - 1].CacheFile? {
      WriteContents(c, ops, limit);
    } else if ops[|ops| - 1].Purge? {
      PurgeContents(c, ops, limit);
    }
  }

  /** Exact LRU: after every run the cache holds what the plain map does. */
  lemma {:induction false} CacheIsExactLru(ops: seq<Op>, limit: nat)
    requires WellFormed(ops)
    ensures Run(ops, limit).data == Contents(ops, limit)
  {
    if ops != [] {
      var front := ops[..|ops| - 1];
      FrontIsWellFormed(ops);
      CacheIsExactLru(front, limit);
      ScoresAreLastUses(front, limit);
      RunsStayAccounted(front, limit);
      ApplyContents(Run(front, limit), ops, limit);
    }
  }

  /** So an eviction never takes an entry and leaves one last used before it. */
  lemma OlderGoesFirst(ops: seq<Op>, limit: nat, older: Key, newer: Key)
    requires WellFormed(ops) && ops != [] && ops[|ops| - 1].CacheFile?
    requires var held := Contents(ops[..|ops| - 1], limit)[ops[|ops| - 1].k := ops[|ops| - 1].binary];
             older in held && newer in held && NotBefore(LastUse(ops, newer), LastUse(ops, older))
    ensures older in Run(ops, limit).data ==> newer in Run(ops, limit).data
  {
    var held := Contents(ops[..|ops| - 1], limit)[ops[|ops| - 1].k := ops[|ops| - 1].binary];
    CacheIsExactLru(ops, limit);
    TotalMonotone(UsedSince(ops, held, older), UsedSince(ops, held, newer));
  }
}
