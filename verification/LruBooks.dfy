/** Least-recently-used eviction as arithmetic: keys with positive weights and
    distinct last-use times, and an amount to free. */
module LruBooks {
  import opened Totals

  ghost predicate ScoredBy<K(!new)>(lru: map<K, int>, at: map<int, K>) {
    forall k :: k in lru ==> lru[k] in at && at[lru[k]] == k
  }

  /** No two keys were last used at the same time: the scores can be read backwards. */
  ghost predicate DistinctScores<K(!new)>(lru: map<K, int>) {
    exists at: map<int, K> :: ScoredBy(lru, at)
  }

  ghost predicate Newer<K(!new)>(lru: map<K, int>, now: int) {
    forall k :: k in lru ==> lru[k] < now
  }

  lemma TouchKeepsScores<K(!new)>(lru: map<K, int>, k: K, now: int)
    requires DistinctScores(lru) && Newer(lru, now)
    ensures DistinctScores(lru[k := now])
  {
    var at :| ScoredBy(lru, at);
    assert ScoredBy(lru[k := now], at[now := k]);
  }

  lemma RemoveKeepsScores<K(!new)>(lru: map<K, int>, gone: set<K>)
    requires DistinctScores(lru)
    ensures DistinctScores(lru - gone)
  {
    var at :| ScoredBy(lru, at);
    assert ScoredBy(lru - gone, at);
  }

  lemma SameScoreSameKey<K(!new)>(lru: map<K, int>, j: K, k: K)
    requires DistinctScores(lru) && j in lru && k in lru && lru[j] == lru[k]
    ensures j == k
  {
    var at :| ScoredBy(lru, at);
    assert at[lru[j]] == j && at[lru[k]] == k;
  }

  lemma OldestIsOlder<K(!new)>(lru: map<K, int>, o: K, k: K)
    requires DistinctScores(lru) && IsOldest(lru, o) && k in lru && k != o
    ensures lru[o] < lru[k]
  {
    var at :| ScoredBy(lru, at);
    assert at[lru[o]] == o && at[lru[k]] == k;
  }

  ghost predicate IsOldest<K(!new)>(lru: map<K, int>, k: K) {
    k in lru && forall j :: j in lru ==> lru[k] <= lru[j]
  }

  /** The weights of `k` and of every key used since. */
  ghost function Recent<K(!new)>(weights: map<K, int>, lru: map<K, int>, k: K): map<K, int> {
    map j | j in weights && j in lru && k in lru && lru[j] >= lru[k] :: weights[j]
  }

  /** The keys that go when the total is over `limit`: those that do not fit it
      together with everything used since. What is left is the longest
      most-recent-first run that fits. */
  ghost function Victims<K(!new)>(weights: map<K, int>, lru: map<K, int>, limit: int): set<K> {
    set k | k in lru && Total(Recent(weights, lru, k)) > limit
  }

  ghost predicate Booked<K(!new)>(weights: map<K, int>, lru: map<K, int>) {
    && weights.Keys == lru.Keys && DistinctScores(lru)
    && forall k :: k in weights ==> weights[k] > 0
  }

  lemma {:induction false} OldestExists<K(!new)>(lru: map<K, int>)
    requires lru != map[]
    ensures exists k :: IsOldest(lru, k)
    decreases lru.Keys
  {
    var k :| k in lru;
    var rest := lru - {k};
    assert forall j :: j in lru ==> j == k || j in rest;
    if rest == map[] {
      assert IsOldest(lru, k);
    } else {
      OldestExists(rest);
      var j :| IsOldest(rest, j);
      assert forall i :: i in rest ==> lru[i] == rest[i];
      if lru[k] <= lru[j] {
        assert IsOldest(lru, k);
      } else {
        assert IsOldest(lru, j);
      }
    }
  }

  lemma RecentOfOldest<K(!new)>(weights: map<K, int>, lru: map<K, int>, o: K)
    requires weights.Keys == lru.Keys && IsOldest(lru, o)
    ensures Recent(weights, lru, o) == weights
  {
  }

  lemma RecentOfNewest<K(!new)>(weights: map<K, int>, lru: map<K, int>, k: K)
    requires weights.Keys == lru.Keys && k in lru && (forall j :: j in lru && j != k ==> lru[j] < lru[k])
    ensures Total(Recent(weights, lru, k)) == weights[k]
  {
    assert Recent(weights, lru, k) == map[k := weights[k]];
    TotalRemove(map[k := weights[k]], k);
    TotalEmpty(map[k := weights[k]] - {k});
  }

  lemma RecentAfterRemoval<K(!new)>(weights: map<K, int>, lru: map<K, int>, o: K, k: K)
    requires o in lru && k in lru && lru[o] < lru[k]
    ensures Recent(weights - {o}, lru - {o}, k) == Recent(weights, lru, k)
  {
  }

  lemma NoVictims<K(!new)>(weights: map<K, int>, lru: map<K, int>, limit: int)
    requires Total(weights) <= limit && forall j :: j in weights ==> weights[j] > 0
    ensures Victims(weights, lru, limit) == {}
  {
    forall k | k in lru ensures Total(Recent(weights, lru, k)) <= limit {
      TotalMonotone(weights, Recent(weights, lru, k));
    }
  }

  /** Over the limit, evicting the oldest key first changes neither who goes nor who stays. */
  lemma VictimsOldestFirst<K(!new)>(weights: map<K, int>, lru: map<K, int>, o: K, limit: int)
    requires Booked(weights, lru) && IsOldest(lru, o) && Total(weights) > limit
    ensures Victims(weights, lru, limit) == {o} + Victims(weights - {o}, lru - {o}, limit)
  {
    RecentOfOldest(weights, lru, o);
    forall k | k in lru && k != o
      ensures k in Victims(weights, lru, limit) <==> k in Victims(weights - {o}, lru - {o}, limit)
    {
      OldestIsOlder(lru, o, k);
      RecentAfterRemoval(weights, lru, o, k);
    }
    assert o in Victims(weights, lru, limit);
    assert Victims(weights - {o}, lru - {o}, limit) <= lru.Keys - {o};
  }

  /** What the victims leave behind fits the limit. */
  lemma {:induction false} SurvivorsFit<K(!new)>(weights: map<K, int>, lru: map<K, int>, limit: nat)
    requires Booked(weights, lru)
    ensures Total(weights - Victims(weights, lru, limit)) <= limit
    decreases lru.Keys
  {
    if Total(weights) <= limit {
      NoVictims(weights, lru, limit);
      assert weights - {} == weights;
    } else {
      var o := SomeOldest(weights, lru);
      SurvivorsFit(weights - {o}, lru - {o}, limit);
      VictimsOldestFirst(weights, lru, o, limit);
      RemoveTwice(weights, {o}, Victims(weights - {o}, lru - {o}, limit));
    }
  }

  ghost predicate OlderClosed<K(!new)>(lru: map<K, int>, ks: set<K>) {
    forall j, k :: k in ks && k in lru && j in lru && lru[j] < lru[k] ==> j in ks
  }

  /** The victims are the shortest oldest-first prefix whose removal suffices: a
      prefix, enough, and contained in every other prefix that is enough. */
  lemma VictimsAreShortestPrefix<K(!new)>(weights: map<K, int>, lru: map<K, int>, limit: nat, prefix: set<K>)
    requires Booked(weights, lru)
    ensures OlderClosed(lru, Victims(weights, lru, limit))
    ensures Total(weights - Victims(weights, lru, limit)) <= limit
    ensures OlderClosed(lru, prefix) && Total(weights - prefix) <= limit ==> Victims(weights, lru, limit) <= prefix
  {
    SurvivorsFit(weights, lru, limit);
    forall j, k | k in Victims(weights, lru, limit) && j in lru && lru[j] < lru[k]
      ensures j in Victims(weights, lru, limit)
    {
      TotalMonotone(Recent(weights, lru, j), Recent(weights, lru, k));
    }
    if OlderClosed(lru, prefix) && Total(weights - prefix) <= limit {
      forall k | k in Victims(weights, lru, limit) ensures k in prefix {
        if k !in prefix {
          forall j | j in Recent(weights, lru, k) ensures j !in prefix {
            if lru[j] == lru[k] { SameScoreSameKey(lru, j, k); }
          }
          TotalMonotone(weights - prefix, Recent(weights, lru, k));
        }
      }
    }
  }

  lemma SomeOldest<K(!new)>(weights: map<K, int>, lru: map<K, int>) returns (o: K)
    requires Booked(weights, lru) && Total(weights) > 0
    ensures IsOldest(lru, o) && Booked(weights - {o}, lru - {o})
  {
    if lru == map[] { TotalEmpty(weights); }
    OldestExists(lru);
    o :| IsOldest(lru, o);
    RemoveKeepsScores(lru, {o});
  }

  lemma RemoveTwice<K(!new), V>(m: map<K, V>, a: set<K>, b: set<K>)
    ensures m - a - b == m - (a + b)
  {
  }

  lemma UpdateKeys<K(!new), V>(m: map<K, V>, k: K, v: V)
    ensures m[k := v].Keys == m.Keys + {k}
  {
  }

  lemma RemoveNone<K(!new), V>(m: map<K, V>)
    ensures m - {} == m
  {
  }
}
