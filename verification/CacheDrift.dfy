/** The core cache when callers may declare any size: the counter is exact after every
    write, and what a wrong declaration costs shows when the entry goes. */
module CacheDrift {
  import opened Totals
  import opened LruBooks
  import opened CacheKeys
  import opened CoreCache

  /** The counter is the bytes held. */
  ghost predicate Exact(c: Cache) {
    c.size == Total(Lengths(c.data))
  }

  /** Metadata, data, LRU and the key sets agree on what is cached, whatever is declared. */
  ghost predicate Indexed(c: Cache) {
    c.meta.Keys == c.data.Keys == c.lru.Keys && DistinctScores(c.lru) && Listed(c.data.Keys, c.keys)
  }

  ghost predicate NoneEmpty(c: Cache) {
    forall k :: k in c.data ==> |c.data[k]| > 0
  }

  // ---- writing ----

  lemma WriteStaysIndexed(c: Cache, k: Key, metadata: CacheMetadata, binary: Bytes, now: int)
    requires Indexed(c) && Newer(c.lru, now)
    ensures Indexed(Write(c, k, metadata, binary, now))
  {
    TouchKeepsScores(c.lru, k, now);
    WriteListed(c.data.Keys, c.keys, k);
    UpdateKeys(c.meta, k, metadata);
    UpdateKeys(c.data, k, binary);
    UpdateKeys(c.lru, k, now);
  }

  /** A write or overwrite keeps the counter exact, whatever size it declares. */
  lemma WriteStaysExact(c: Cache, k: Key, metadata: CacheMetadata, binary: Bytes, now: int)
    ensures Exact(c) <==> Exact(Write(c, k, metadata, binary, now))
  {
    WriteTotals(c, k, binary);
  }

  // ---- purging ----

  lemma PurgeBalance(size: int, all: int, rest: int, declared: int, held: int)
    requires size == all == rest + held
    ensures size - declared == rest <==> declared == held
  {
  }

  /** A purge keeps the counter exact if and only if what the file's entries declare
      adds up to their bytes. */
  lemma PurgeExactIff(c: Cache, fileId: FileId)
    requires Exact(c)
    ensures var ks := KeysOf(c.keys, fileId);
            Exact(EvictFile(c, fileId)) <==> Total(Among(DeclaredSizes(c.meta), ks)) == Total(Among(Lengths(c.data), ks))
  {
    var ks := KeysOf(c.keys, fileId);
    var declared, held := Total(Among(DeclaredSizes(c.meta), ks)), Total(Among(Lengths(c.data), ks));
    if ks == {} {
      TotalEmpty(Among(DeclaredSizes(c.meta), ks));
      TotalEmpty(Among(Lengths(c.data), ks));
    } else {
      TotalSplit(Lengths(c.data), ks);
      LengthsMinus(c.data, ks);
      var after := EvictFile(c, fileId);
      assert after.data == c.data - ks && after.size == c.size - declared;
      PurgeBalance(c.size, Total(Lengths(c.data)), Total(Lengths(c.data - ks)), declared, held);
    }
  }

  /** The sums of the entries under `ks`, when only `k` is written anew. */
  lemma WrittenSums(c: Cache, k: Key, metadata: CacheMetadata, binary: Bytes, ks: set<Key>)
    requires SizesRecorded(c.meta, c.data) && k in ks
    ensures Total(Among(DeclaredSizes(c.meta[k := metadata]), ks)) == Total(Among(Lengths(c.data[k := binary]), ks))
            <==> metadata.size == |binary|
  {
    var meta, data, others := c.meta[k := metadata], c.data[k := binary], ks - {k};
    assert others + {k} == ks;
    AmongOneMore(DeclaredSizes(meta), others, k);
    AmongOneMore(Lengths(data), others, k);
    assert Among(DeclaredSizes(meta), others) == Among(Lengths(data), others);
  }

  /** So writing an entry and purging its file leaves the counter exact if and only if
      the declared size is the true length. */
  lemma WriteThenPurgeExactIff(c: Cache, k: Key, metadata: CacheMetadata, binary: Bytes, now: int)
    requires Accounted(c) && Newer(c.lru, now)
    ensures Exact(EvictFile(Write(c, k, metadata, binary, now), k.fileId)) <==> metadata.size == |binary|
  {
    var w := Write(c, k, metadata, binary, now);
    WriteStaysExact(c, k, metadata, binary, now);
    PurgeExactIff(w, k.fileId);
    WrittenSums(c, k, metadata, binary, KeysOf(w.keys, k.fileId));
  }

  // ---- one turn of the eviction loop ----

  function Declared(c: Cache, o: Key): int {
    if o in c.meta then c.meta[o].size else 0
  }

  /** The script on the oldest entry, and the reset when it reports 0. */
  function Turn(c: Cache, o: Key): Cache {
    if Declared(c, o) == 0 then EvictKey(c, o).(size := 0) else EvictKey(c, o)
  }

  lemma TurnKeepsIndexed(c: Cache, o: Key)
    requires Indexed(c) && o in c.lru
    ensures Indexed(Turn(c, o))
  {
    RemoveKeepsScores(c.lru, {o});
  }

  /** A turn keeps the counter exact if and only if the entry declared its length, or
      declared nothing and no bytes are left to count. */
  lemma TurnExactIff(c: Cache, o: Key)
    requires Indexed(c) && Exact(c) && o in c.lru
    ensures var rest := Total(Lengths((c.data - {o})));
            Exact(Turn(c, o)) <==>
              if Declared(c, o) == 0 then rest == 0
              else if Declared(c, o) > 0 then Declared(c, o) == |c.data[o]|
              else |c.data[o]| == 0
  {
    TotalRemove(Lengths(c.data), o);
    LengthsMinus(c.data, {o});
  }

  /** The reset with bytes still held: an oldest entry that declares 0 empties the
      counter while everything else stays cached. */
  lemma ResetForgetsBytes(c: Cache, o: Key)
    requires Indexed(c) && NoneEmpty(c) && o in c.lru && Declared(c, o) == 0
    ensures Turn(c, o).size == 0 && Turn(c, o).data == c.data - {o}
    ensures c.data.Keys != {o} ==> Total(Lengths(Turn(c, o).data)) > 0
  {
    if c.data.Keys != {o} {
      var k :| k in c.data && k != o;
      HeldIsPositive(c.data - {o}, k);
    }
  }

  lemma HeldIsPositive(data: map<Key, Bytes>, k: Key)
    requires k in data && forall j :: j in data ==> |data[j]| > 0
    ensures Total(Lengths(data)) > 0
  {
    TotalRemove(Lengths(data), k);
    TotalMonotone(Lengths(data) - {k}, Lengths(data) - {k});
  }

  // ---- the loop ----

  ghost function Oldest(lru: map<Key, int>): (o: Key)
    requires lru != map[]
    ensures IsOldest(lru, o)
  {
    OldestExists(lru);
    var o :| IsOldest(lru, o);
    o
  }

  lemma OldestIs(lru: map<Key, int>, o: Key)
    requires DistinctScores(lru) && IsOldest(lru, o)
    ensures Oldest(lru) == o
  {
    SameScoreSameKey(lru, Oldest(lru), o);
  }

  function LeftToFree(c: Cache, o: Key, toFree: int): int {
    toFree - Declared(c, o)
  }

  lemma OneFewer(lru: map<Key, int>, o: Key)
    requires o in lru
    ensures (lru - {o}).Keys < lru.Keys
  {
    assert o in lru.Keys && o !in (lru - {o}).Keys;
  }

  /** `enforceEvictionPolicy` with `toFree` bytes still to free. */
  ghost function EvictLoop(c: Cache, toFree: int): Cache
    decreases c.lru.Keys
  {
    if toFree <= 0 then c
    else if c.lru == map[] then c.(size := 0)
    else
      var o := Oldest(c.lru);
      OneFewer(c.lru, o);
      if Declared(c, o) == 0 then Turn(c, o) else EvictLoop(Turn(c, o), LeftToFree(c, o, toFree))
  }

  /** What the counter is over the limit. */
  function Excess(c: Cache, limit: nat): int {
    c.size - limit
  }

  /** Whichever oldest entry goes, the loop takes the turn it takes. */
  lemma LoopTurn(c: Cache, o: Key, toFree: int)
    requires DistinctScores(c.lru) && IsOldest(c.lru, o) && toFree > 0
    ensures EvictLoop(c, toFree) ==
            if Declared(c, o) == 0 then Turn(c, o) else EvictLoop(Turn(c, o), LeftToFree(c, o, toFree))
  {
    OldestIs(c.lru, o);
  }

  /** With every size declared truly the loop is the eviction the model states. */
  lemma {:induction false} LoopIsEnforce(c: Cache, limit: nat, toFree: int)
    requires Accounted(c) && toFree == Excess(c, limit)
    ensures EvictLoop(c, toFree) == Enforce(c, limit)
    decreases c.lru.Keys
  {
    if toFree <= 0 {
      WithinLimit(c, limit);
    } else {
      if c.lru == map[] {
        TotalEmpty(Lengths(c.data));
      }
      var o := Oldest(c.lru);
      EvictionTurn(c, o, limit);
      OneFewer(c.lru, o);
      LoopIsEnforce(Turn(c, o), limit, LeftToFree(c, o, toFree));
    }
  }

  /** The counter ends within the limit, whatever is declared. */
  lemma {:induction false} LoopWithinLimit(c: Cache, limit: nat, toFree: int)
    requires c.size - limit <= toFree
    ensures EvictLoop(c, toFree).size <= limit
    decreases c.lru.Keys
  {
    if toFree > 0 && c.lru != map[] {
      var o := Oldest(c.lru);
      OneFewer(c.lru, o);
      if Declared(c, o) != 0 {
        LoopWithinLimit(Turn(c, o), limit, LeftToFree(c, o, toFree));
      }
    }
  }

  ghost predicate Resets(c: Cache, toFree: int)
    decreases c.lru.Keys
  {
    toFree > 0 &&
    (c.lru == map[] ||
     var o := Oldest(c.lru);
     OneFewer(c.lru, o);
     Declared(c, o) == 0 || Resets(Turn(c, o), LeftToFree(c, o, toFree)))
  }

  /** The loop resets the counter with something still cached only if some entry
      declares 0. */
  lemma {:induction false} ResetLeavesNothing(c: Cache, toFree: int)
    requires c.lru.Keys == c.meta.Keys && forall k :: k in c.meta ==> c.meta[k].size != 0
    requires Resets(c, toFree)
    ensures EvictLoop(c, toFree).lru == map[]
    decreases c.lru.Keys
  {
    if c.lru != map[] {
      var o := Oldest(c.lru);
      OneFewer(c.lru, o);
      ResetLeavesNothing(Turn(c, o), LeftToFree(c, o, toFree));
    }
  }

  // ---- every continuation ----

  /** What removes entries: a turn of the eviction loop, or a purge. */
  datatype Removal = Evict(o: Key) | Purge(fileId: FileId)

  ghost predicate Enabled(c: Cache, r: Removal) {
    r.Evict? ==> IsOldest(c.lru, r.o)
  }

  ghost function Remove(c: Cache, r: Removal): Cache {
    match r
    case Evict(o) => Turn(c, o)
    case Purge(fileId) => EvictFile(c, fileId)
  }

  ghost function RemoveAll(c: Cache, rs: seq<Removal>): Cache
    decreases |rs|
  {
    if rs == [] then c else RemoveAll(Remove(c, rs[0]), rs[1..])
  }

  ghost predicate AllEnabled(c: Cache, rs: seq<Removal>)
    decreases |rs|
  {
    rs != [] ==> Enabled(c, rs[0]) && AllEnabled(Remove(c, rs[0]), rs[1..])
  }

  /** However entries are removed from here, the counter stays exact. Removals may evict
      also when nothing is over the limit, as later writes will make it be. */
  ghost predicate Safe(c: Cache) {
    forall rs :: AllEnabled(c, rs) ==> Exact(RemoveAll(c, rs))
  }

  lemma RemovalStaysAccounted(c: Cache, r: Removal)
    requires Accounted(c) && Enabled(c, r)
    ensures Accounted(Remove(c, r))
  {
    match r
    case Evict(o) =>
      TotalRemove(Lengths(c.data), o);
      LengthsMinus(c.data, {o});
      DropKeepsIndexes(c, {o});
    case Purge(fileId) => EvictFileAccounted(c, fileId);
  }

  lemma {:induction false} RemovalsStayExact(c: Cache, rs: seq<Removal>)
    requires Accounted(c) && AllEnabled(c, rs)
    ensures Exact(RemoveAll(c, rs))
    decreases |rs|
  {
    if rs != [] {
      RemovalStaysAccounted(c, rs[0]);
      RemovalsStayExact(Remove(c, rs[0]), rs[1..]);
    }
  }

  /** From a wrong declaration some removals lead to a wrong counter. */
  lemma {:induction false} WrongShows(c: Cache) returns (rs: seq<Removal>)
    requires Indexed(c) && Exact(c) && NoneEmpty(c) && !SizesRecorded(c.meta, c.data)
    ensures AllEnabled(c, rs) && !Exact(RemoveAll(c, rs))
    decreases c.lru.Keys
  {
    var k :| k in c.meta && c.meta[k].size != |c.data[k]|;
    var o := Oldest(c.lru);
    TurnExactIff(c, o);
    if !Exact(Turn(c, o)) {
      rs := [Evict(o)];
      OneRemoval(c, rs[0]);
    } else if c.meta[o].size == |c.data[o]| {
      OneFewer(c.lru, o);
      TurnKeepsIndexed(c, o);
      assert k in Turn(c, o).meta;
      var later := WrongShows(Turn(c, o));
      rs := [Evict(o)] + later;
      assert rs[1..] == later;
    } else {
      LastEntryWrong(c, o);
      rs := [Removal.Purge(o.fileId)];
      OneRemoval(c, rs[0]);
    }
  }

  lemma OneRemoval(c: Cache, r: Removal)
    requires Enabled(c, r)
    ensures AllEnabled(c, [r]) && RemoveAll(c, [r]) == Remove(c, r)
  {
    assert [r][1..] == [];
  }

  /** A wrong declaration that its own eviction does not show is the only entry's, and
      a purge shows it. */
  lemma LastEntryWrong(c: Cache, o: Key)
    requires Indexed(c) && Exact(c) && NoneEmpty(c) && o in c.lru
    requires Exact(Turn(c, o)) && c.meta[o].size != |c.data[o]|
    ensures !Exact(EvictFile(c, o.fileId))
  {
    TurnExactIff(c, o);
    ResetForgetsBytes(c, o);
    assert c.data.Keys == {o};
    PurgeListed(c.data.Keys, c.keys, o.fileId);
    PurgeExactIff(c, o.fileId);
    var ks := KeysOf(c.keys, o.fileId);
    OneEntry(DeclaredSizes(c.meta), ks, o);
    OneEntry(Lengths(c.data), ks, o);
  }

  lemma OneEntry(m: map<Key, int>, ks: set<Key>, o: Key)
    requires m.Keys == {o} && o in ks
    ensures Total(Among(m, ks)) == m[o]
  {
    TotalRemove(Among(m, ks), o);
    TotalEmpty(Among(m, ks) - {o});
  }

  /** The counter survives every later eviction and purge if and only if every entry
      declares its true length. */
  lemma SafeIff(c: Cache)
    requires Indexed(c) && Exact(c) && NoneEmpty(c)
    ensures Safe(c) <==> SizesRecorded(c.meta, c.data)
  {
    if SizesRecorded(c.meta, c.data) {
      forall rs | AllEnabled(c, rs)
        ensures Exact(RemoveAll(c, rs))
      {
        RemovalsStayExact(c, rs);
      }
    } else {
      var rs := WrongShows(c);
      assert AllEnabled(c, rs);
    }
  }

  lemma WriteIsSound(c: Cache, k: Key, metadata: CacheMetadata, binary: Bytes, now: int)
    requires Accounted(c) && Newer(c.lru, now) && binary != []
    ensures var w := Write(c, k, metadata, binary, now); Indexed(w) && Exact(w) && NoneEmpty(w)
  {
    WriteStaysIndexed(c, k, metadata, binary, now);
    WriteStaysExact(c, k, metadata, binary, now);
  }

  /** So a write is safe if and only if it declares the length it stores. */
  lemma WriteSafeIff(c: Cache, k: Key, metadata: CacheMetadata, binary: Bytes, now: int)
    requires Accounted(c) && Newer(c.lru, now) && binary != []
    ensures Safe(Write(c, k, metadata, binary, now)) <==> metadata.size == |binary|
  {
    WriteIsSound(c, k, metadata, binary, now);
    WriteRecorded(c, k, metadata, binary);
    SafeIff(Write(c, k, metadata, binary, now));
  }
}
