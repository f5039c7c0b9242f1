/** Sums over finite maps, and the raw bytes that caches and uploads hold. */
module Totals {
  import opened Sequences

  newtype Byte = b: int | 0 <= b < 256

  type Bytes = seq<Byte>

  ghost predicate KeysIn<K>(s: seq<K>, m: map<K, int>) {
    forall i :: 0 <= i < |s| ==> s[i] in m
  }

  /** `s` lists the keys of `m`, each once. */
  ghost predicate Lists<K>(s: seq<K>, m: map<K, int>) {
    Distinct(s) && KeysIn(s, m) && |s| == |m|
  }

  ghost function SumAlong<K>(s: seq<K>, m: map<K, int>): int
    requires KeysIn(s, m)
  {
    if s == [] then 0 else SumAlong(s[..|s| - 1], m) + m[s[|s| - 1]]
  }

  ghost predicate IsTotal<K(!new)>(m: map<K, int>, x: int) {
    exists s: seq<K> :: Lists(s, m) && SumAlong(s, m) == x
  }

  /** The sum of all values of `m`. It is specified rather than computed, so that
      proofs use it only through the lemmas below. */
  ghost function Total<K(!new)>(m: map<K, int>): int {
    TotalExists(m);
    var x :| IsTotal(m, x);
    x
  }

  lemma {:induction false} TotalExists<K(!new)>(m: map<K, int>)
    ensures exists x :: IsTotal(m, x)
    decreases |m|
  {
    var s := Listing(m);
    assert IsTotal(m, SumAlong(s, m));
  }

  lemma {:induction false} Listing<K(!new)>(m: map<K, int>) returns (s: seq<K>)
    ensures Lists(s, m)
    decreases |m|
  {
    if m == map[] {
      s := [];
    } else {
      var k :| k in m;
      var rest := Listing(m - {k});
      RemoveCount(m, k);
      s := rest + [k];
      assert forall i :: 0 <= i < |rest| ==> rest[i] in m - {k};
    }
  }

  lemma RemoveCount<K(!new)>(m: map<K, int>, k: K)
    requires k in m
    ensures |m - {k}| == |m| - 1
  {
    assert m.Keys == (m - {k}).Keys + {k};
    assert |m.Keys| == |m| && |(m - {k}).Keys| == |m - {k}|;
  }

  lemma {:induction false} SameSum<K(!new)>(s: seq<K>, m: map<K, int>, m': map<K, int>)
    requires forall i :: 0 <= i < |s| ==> s[i] in m && s[i] in m' && m[s[i]] == m'[s[i]]
    ensures SumAlong(s, m) == SumAlong(s, m')
  {
    if s != [] {
      SameSum(s[..|s| - 1], m, m');
    }
  }

  /** Leaving out position `i`, which is not the last, leaves the last in place. */
  lemma LeaveOut<K(!new)>(s: seq<K>, i: nat, front: seq<K>, last: K)
    requires s == front + [last] && i < |front|
    ensures s[..i] + s[i + 1..] == (front[..i] + front[i + 1..]) + [last]
    ensures s[i] == front[i]
  {
    assert s[i + 1..] == front[i + 1..] + [last];
  }

  lemma SumPush<K(!new)>(s: seq<K>, m: map<K, int>, k: K)
    requires KeysIn(s, m) && k in m
    ensures KeysIn(s + [k], m) && SumAlong(s + [k], m) == SumAlong(s, m) + m[k]
  {
    assert (s + [k])[..|s + [k]| - 1] == s;
  }

  lemma KeysInFront<K(!new)>(front: seq<K>, last: K, m: map<K, int>)
    requires KeysIn(front + [last], m)
    ensures KeysIn(front, m) && last in m
  {
    assert (front + [last])[|front|] == last;
    assert forall i :: 0 <= i < |front| ==> front[i] == (front + [last])[i];
  }

  /** Taking one key out of a listing takes its value out of the sum. */
  lemma {:induction false} SumWithout<K(!new)>(s: seq<K>, m: map<K, int>, i: nat)
    requires i < |s| && KeysIn(s, m)
    ensures KeysIn(s[..i] + s[i + 1..], m)
    ensures SumAlong(s, m) == SumAlong(s[..i] + s[i + 1..], m) + m[s[i]]
  {
    var front, last := s[..|s| - 1], s[|s| - 1];
    assert s == front + [last];
    KeysInFront(front, last, m);
    SumPush(front, m, last);
    if i == |front| {
      assert s[..i] + s[i + 1..] == front;
    } else {
      SumWithout(front, m, i);
      LeaveOut(s, i, front, last);
      SumPush(front[..i] + front[i + 1..], m, last);
    }
  }

  lemma ListsContain<K(!new)>(s: seq<K>, m: map<K, int>, k: K)
    requires Lists(s, m) && k in m
    ensures exists i :: 0 <= i < |s| && s[i] == k
  {
    DistinctSize(s);
    assert |m.Keys| == |m|;
    if k !in s {
      assert ToSet(s) + {k} <= m.Keys && |ToSet(s) + {k}| == |s| + 1;
      SubsetSize(ToSet(s) + {k}, m.Keys);
    }
  }

  lemma {:induction false} ListingsAgree<K(!new)>(s: seq<K>, t: seq<K>, m: map<K, int>)
    requires Lists(s, m) && Lists(t, m)
    ensures SumAlong(s, m) == SumAlong(t, m)
    decreases |s|
  {
    if s != [] {
      var front, k := s[..|s| - 1], s[|s| - 1];
      ListsContain(t, m, k);
      var i :| 0 <= i < |t| && t[i] == k;
      var rest := t[..i] + t[i + 1..];
      SumWithout(t, m, i);
      RemoveCount(m, k);
      ListsRemove(s, m, |s| - 1);
      ListsRemove(t, m, i);
      assert front == s[..|s| - 1] + s[|s|..];
      ListingsAgree(front, rest, m - {k});
      SameSum(front, m, m - {k});
      SameSum(rest, m, m - {k});
    }
  }

  lemma ListsRemove<K(!new)>(s: seq<K>, m: map<K, int>, i: nat)
    requires Lists(s, m) && i < |s|
    ensures Lists(s[..i] + s[i + 1..], m - {s[i]})
  {
    RemoveCount(m, s[i]);
  }

  lemma TotalIs<K(!new)>(m: map<K, int>, s: seq<K>)
    requires Lists(s, m)
    ensures Total(m) == SumAlong(s, m)
  {
    assert IsTotal(m, SumAlong(s, m));
    var t :| Lists(t, m) && SumAlong(t, m) == Total(m);
    ListingsAgree(s, t, m);
  }

  lemma TotalEmpty<K(!new)>(m: map<K, int>)
    requires m == map[]
    ensures Total(m) == 0
  {
    TotalIs(m, []);
  }

  lemma TotalRemove<K(!new)>(m: map<K, int>, k: K)
    requires k in m
    ensures Total(m) == m[k] + Total(m - {k})
  {
    var s := Listing(m);
    ListsContain(s, m, k);
    var i :| 0 <= i < |s| && s[i] == k;
    var rest := s[..i] + s[i + 1..];
    TotalIs(m, s);
    SumWithout(s, m, i);
    ListsRemove(s, m, i);
    TotalIs(m - {k}, rest);
    SameSum(rest, m, m - {k});
  }

  lemma TotalUpdate<K(!new)>(m: map<K, int>, k: K, v: int)
    ensures Total(m[k := v]) == Total(m) - (if k in m then m[k] else 0) + v
  {
    TotalRemove(m[k := v], k);
    assert m[k := v] - {k} == m - {k};
    if k in m {
      TotalRemove(m, k);
    } else {
      assert m - {k} == m;
    }
  }

  lemma {:induction false} TotalMonotone<K(!new)>(m: map<K, int>, part: map<K, int>)
    requires forall k :: k in m ==> m[k] >= 0
    requires forall k :: k in part ==> k in m && part[k] == m[k]
    ensures 0 <= Total(part) <= Total(m)
    decreases |m|
  {
    if m == map[] {
      TotalEmpty(m);
      TotalEmpty(part);
    } else {
      var k :| k in m;
      TotalRemove(m, k);
      if k in part {
        TotalRemove(part, k);
        TotalMonotone(m - {k}, part - {k});
      } else {
        TotalMonotone(m - {k}, part);
      }
    }
  }

  /** The entries of `m` whose keys lie in `ks`. */
  ghost function Among<K(!new)>(m: map<K, int>, ks: set<K>): map<K, int> {
    map k | k in m && k in ks :: m[k]
  }

  lemma AmongOneMore<K(!new)>(m: map<K, int>, ks: set<K>, k: K)
    requires k !in ks
    ensures Total(Among(m, ks + {k})) == Total(Among(m, ks)) + if k in m then m[k] else 0
  {
    if k in m {
      TotalUpdate(Among(m, ks), k, m[k]);
      assert Among(m, ks + {k}) == Among(m, ks)[k := m[k]];
    } else {
      assert Among(m, ks + {k}) == Among(m, ks);
    }
  }

  lemma {:induction false} TotalSplit<K(!new)>(m: map<K, int>, ks: set<K>)
    ensures Total(m) == Total(m - ks) + Total(Among(m, ks))
    decreases m.Keys
  {
    if k :| k in m {
      TotalSplit(m - {k}, ks);
      TotalRemove(m, k);
      if k in ks {
        SplitInside(m, ks, k);
      } else {
        SplitOutside(m, ks, k);
      }
    } else {
      TotalEmpty(m);
      TotalEmpty(m - ks);
      TotalEmpty(Among(m, ks));
    }
  }

  lemma SplitInside<K(!new)>(m: map<K, int>, ks: set<K>, k: K)
    requires k in m && k in ks
    ensures Total(Among(m, ks)) == m[k] + Total(Among(m - {k}, ks))
    ensures m - {k} - ks == m - ks
  {
    TotalRemove(Among(m, ks), k);
    assert Among(m - {k}, ks) == Among(m, ks) - {k};
  }

  lemma SplitOutside<K(!new)>(m: map<K, int>, ks: set<K>, k: K)
    requires k in m && k !in ks
    ensures Total(m - ks) == m[k] + Total(m - {k} - ks)
    ensures Among(m - {k}, ks) == Among(m, ks)
  {
    TotalRemove(m - ks, k);
    assert m - {k} - ks == m - ks - {k};
  }
}
