/** Sequence vocabulary shared by the models: filtering, first-occurrence
    deduplication (a JavaScript `Set` filled in order), and stable sorting. */
module Sequences {

  function ToSet<T(==)>(s: seq<T>): set<T> {
    set x | x in s
  }

  ghost predicate Distinct<T>(s: seq<T>) {
    forall i, j :: 0 <= i < j < |s| ==> s[i] != s[j]
  }

  function Min(a: int, b: int): int {
    if a < b then a else b
  }

  function Last<T>(s: seq<T>): T
    requires s != []
  {
    s[|s| - 1]
  }

  function Front<T>(s: seq<T>): seq<T>
    requires s != []
  {
    s[..|s| - 1]
  }

  /** The elements of `s` that lie in `keep`, in their original order. */
  function Restrict<T(==,!new)>(s: seq<T>, keep: set<T>): (r: seq<T>)
    ensures forall x :: x in r <==> x in s && x in keep
    ensures |r| <= |s|
  {
    if s == [] then [] else
      assert s == Front(s) + [Last(s)];
      var r := Restrict(Front(s), keep);
      if Last(s) in keep then r + [Last(s)] else r
  }

  /** The first occurrences of the elements of `s`, in order. */
  function Dedup<T(==,!new)>(s: seq<T>): (r: seq<T>)
    ensures Distinct(r)
    ensures forall x :: x in r <==> x in s
  {
    if s == [] then [] else
      assert s == Front(s) + [Last(s)];
      var r := Dedup(Front(s));
      if Last(s) in r then r else r + [Last(s)]
  }

  lemma TailOfAppend<T>(a: seq<T>, b: seq<T>, n: nat)
    requires n <= |a|
    ensures (a + b)[n..] == a[n..] + b
  {
  }

  lemma Reassociate<T>(a: seq<T>, b: seq<T>, c: seq<T>)
    ensures (a + b) + c == a + (b + c)
  {
  }

  lemma Pushed<T(!new)>(s: seq<T>, x: T)
    ensures Front(s + [x]) == s && Last(s + [x]) == x
    ensures ToSet(s + [x]) == ToSet(s) + {x}
    ensures Distinct(s) && x !in s ==> Distinct(s + [x])
  {
  }

  lemma TakeOneMore<T(!new)>(s: seq<T>, i: nat)
    requires i < |s|
    ensures s[..i + 1] == s[..i] + [s[i]]
    ensures Front(s[..i + 1]) == s[..i] && Last(s[..i + 1]) == s[i]
    ensures ToSet(s[..i + 1]) == ToSet(s[..i]) + {s[i]}
  {
    assert s[..i + 1] == s[..i] + [s[i]];
    Pushed(s[..i], s[i]);
  }

  lemma RestrictPush<T(!new)>(s: seq<T>, x: T, keep: set<T>)
    ensures Restrict(s + [x], keep) == if x in keep then Restrict(s, keep) + [x] else Restrict(s, keep)
  {
    assert Front(s + [x]) == s && Last(s + [x]) == x;
  }

  lemma {:induction false} RestrictAppend<T(!new)>(a: seq<T>, b: seq<T>, keep: set<T>)
    ensures Restrict(a + b, keep) == Restrict(a, keep) + Restrict(b, keep)
  {
    if b == [] {
      assert a + b == a;
    } else {
      RestrictAppend(a, Front(b), keep);
      assert Front(a + b) == a + Front(b);
    }
  }

  lemma {:induction false} RestrictSame<T(!new)>(s: seq<T>, a: set<T>, b: set<T>)
    requires forall x :: x in s ==> (x in a <==> x in b)
    ensures Restrict(s, a) == Restrict(s, b)
  {
    if s != [] {
      assert Last(s) in s;
      RestrictSame(Front(s), a, b);
    }
  }

  lemma {:induction false} RestrictTwice<T(!new)>(s: seq<T>, a: set<T>, b: set<T>)
    ensures Restrict(Restrict(s, a), b) == Restrict(s, a * b)
  {
    if s != [] {
      RestrictTwice(Front(s), a, b);
    }
  }

  lemma {:induction false} RestrictDistinct<T(!new)>(s: seq<T>, keep: set<T>)
    requires Distinct(s)
    ensures Distinct(Restrict(s, keep))
  {
    if s != [] {
      RestrictDistinct(Front(s), keep);
      assert Last(s) !in Front(s);
    }
  }

  lemma {:induction false} RestrictAll<T(!new)>(s: seq<T>, keep: set<T>)
    requires forall x :: x in s ==> x in keep
    ensures Restrict(s, keep) == s
  {
    if s != [] {
      RestrictAll(Front(s), keep);
    }
  }

  /** Filtering does not care whether duplicates are removed before or after. */
  lemma {:induction false} DedupRestrict<T(!new)>(s: seq<T>, keep: set<T>)
    ensures Dedup(Restrict(s, keep)) == Restrict(Dedup(s), keep)
  {
    if s != [] {
      DedupRestrict(Front(s), keep);
      if Last(s) in keep {
        assert Front(Restrict(s, keep)) == Restrict(Front(s), keep);
      }
      if Last(s) !in Dedup(Front(s)) {
        assert Front(Dedup(s)) == Dedup(Front(s));
      }
    }
  }

  lemma {:induction false} DedupPrefix<T(!new)>(a: seq<T>, b: seq<T>)
    ensures Dedup(a) <= Dedup(a + b)
  {
    if b == [] {
      assert a + b == a;
    } else {
      DedupPrefix(a, Front(b));
      assert Front(a + b) == a + Front(b);
    }
  }

  lemma {:induction false} DistinctSize<T(!new)>(s: seq<T>)
    requires Distinct(s)
    ensures |ToSet(s)| == |s|
  {
    if s != [] {
      DistinctSize(Front(s));
      assert s == Front(s) + [Last(s)];
      assert ToSet(s) == ToSet(Front(s)) + {Last(s)};
      assert Last(s) !in Front(s);
    }
  }

  lemma {:induction false} SizeOfSet<T(!new)>(s: seq<T>)
    ensures |ToSet(s)| <= |s|
  {
    if s != [] {
      SizeOfSet(Front(s));
      assert s == Front(s) + [Last(s)];
      assert ToSet(s) == ToSet(Front(s)) + {Last(s)};
    }
  }

  /** As many places as elements that must occur: each occurs once, and nothing else does. */
  lemma {:induction false} NoRoomForMore<T(!new)>(s: seq<T>, wanted: set<T>)
    requires wanted <= ToSet(s) && |s| == |wanted|
    ensures Distinct(s) && ToSet(s) == wanted
  {
    if s != [] {
      var front, x := Front(s), Last(s);
      assert s == front + [x];
      Pushed(front, x);
      SizeOfSet(front);
      if x !in wanted {
        SubsetSize(wanted, ToSet(front));
      }
      NoRoomForMore(front, wanted - {x});
    }
  }

  lemma SubsetSize<T>(a: set<T>, b: set<T>)
    requires a <= b
    ensures |a| <= |b|
  {
    assert b == a + (b - a);
  }

  // ---- stable sorting by an integer key ----

  ghost predicate SortedBy<T>(s: seq<T>, key: T -> int) {
    forall i, j :: 0 <= i < j < |s| ==> key(s[i]) <= key(s[j])
  }

  /** Inserts `x` after every element whose key is not larger. */
  function InsertBy<T>(s: seq<T>, x: T, key: T -> int): seq<T> {
    if s == [] then [x]
    else if key(Last(s)) <= key(x) then s + [x]
    else InsertBy(Front(s), x, key) + [Last(s)]
  }

  /** `Array.prototype.sort((a, b) => key(a) - key(b))`, which is stable. */
  function SortBy<T>(s: seq<T>, key: T -> int): seq<T> {
    if s == [] then [] else InsertBy(SortBy(Front(s), key), Last(s), key)
  }

  lemma {:induction false} InsertByPermutes<T(!new)>(s: seq<T>, x: T, key: T -> int)
    ensures multiset(InsertBy(s, x, key)) == multiset(s) + multiset{x}
  {
    if s != [] {
      assert s == Front(s) + [Last(s)];
      if key(Last(s)) > key(x) {
        InsertByPermutes(Front(s), x, key);
      }
    }
  }

  lemma {:induction false} InsertBySorted<T(!new)>(s: seq<T>, x: T, key: T -> int)
    requires SortedBy(s, key)
    ensures SortedBy(InsertBy(s, x, key), key)
  {
    if s != [] && key(Last(s)) > key(x) {
      var r := InsertBy(Front(s), x, key);
      InsertBySorted(Front(s), x, key);
      InsertByPermutes(Front(s), x, key);
      forall i | 0 <= i < |r| ensures key(r[i]) <= key(Last(s)) {
        assert r[i] in multiset(r);
        assert r[i] in Front(s) || r[i] == x;
      }
    }
  }

  /** Sorting permutes its input and puts the keys in order. */
  lemma {:induction false} SortByCorrect<T(!new)>(s: seq<T>, key: T -> int)
    ensures multiset(SortBy(s, key)) == multiset(s)
    ensures SortedBy(SortBy(s, key), key)
  {
    if s != [] {
      assert s == Front(s) + [Last(s)];
      SortByCorrect(Front(s), key);
      InsertByPermutes(SortBy(Front(s), key), Last(s), key);
      InsertBySorted(SortBy(Front(s), key), Last(s), key);
    }
  }

  lemma SortByElements<T(!new)>(s: seq<T>, key: T -> int)
    ensures |SortBy(s, key)| == |s|
    ensures forall x :: x in SortBy(s, key) <==> x in s
    ensures Distinct(s) ==> Distinct(SortBy(s, key))
  {
    var r := SortBy(s, key);
    SortByCorrect(s, key);
    assert |multiset(r)| == |r| && |multiset(s)| == |s|;
    forall x ensures x in r <==> x in s {
      assert x in multiset(r) <==> x in r;
      assert x in multiset(s) <==> x in s;
    }
    if Distinct(s) {
      DistinctMultiset(s);
      MultisetDistinct(r);
    }
  }

  lemma {:induction false} DistinctMultiset<T(!new)>(s: seq<T>)
    requires Distinct(s)
    ensures forall x :: multiset(s)[x] <= 1
  {
    if s != [] {
      DistinctMultiset(Front(s));
      assert s == Front(s) + [Last(s)];
      assert Last(s) !in Front(s);
      assert Last(s) !in multiset(Front(s));
    }
  }

  lemma {:induction false} MultisetDistinct<T(!new)>(s: seq<T>)
    requires forall x :: multiset(s)[x] <= 1
    ensures Distinct(s)
  {
    if s != [] {
      assert s == Front(s) + [Last(s)];
      assert multiset(s) == multiset(Front(s)) + multiset{Last(s)};
      forall x ensures multiset(Front(s))[x] <= 1 {
        assert multiset(s)[x] <= 1;
      }
      MultisetDistinct(Front(s));
      assert multiset(s)[Last(s)] <= 1;
      assert Last(s) !in multiset(Front(s));
    }
  }

  // ---- strictly increasing sequences of hashes ----

  ghost predicate StrictlyIncreasing(s: seq<nat>) {
    forall i, j :: 0 <= i < j < |s| ==> s[i] < s[j]
  }

  lemma ToSetEmpty<T(!new)>(s: seq<T>)
    ensures ToSet(s) == {} <==> s == []
  {
    assert s != [] ==> s[0] in ToSet(s);
  }

  lemma IncreasingLast(s: seq<nat>)
    requires StrictlyIncreasing(s) && s != []
    ensures ToSet(Front(s)) == ToSet(s) - {Last(s)}
    ensures Last(s) in ToSet(s)
    ensures forall x :: x in ToSet(s) ==> x <= Last(s)
  {
    assert s == Front(s) + [Last(s)];
    forall x | x in Front(s) ensures x < Last(s) {
      var i :| 0 <= i < |Front(s)| && Front(s)[i] == x;
    }
  }

  /** A strictly increasing sequence is determined by its set of elements. */
  lemma {:induction false} IncreasingUnique(a: seq<nat>, b: seq<nat>)
    requires StrictlyIncreasing(a) && StrictlyIncreasing(b)
    requires ToSet(a) == ToSet(b)
    ensures a == b
  {
    ToSetEmpty(a);
    ToSetEmpty(b);
    if a != [] && b != [] {
      IncreasingLast(a);
      IncreasingLast(b);
      IncreasingUnique(Front(a), Front(b));
      assert a == Front(a) + [Last(a)];
      assert b == Front(b) + [Last(b)];
    }
  }

  lemma {:induction false} RestrictIncreasing(s: seq<nat>, keep: set<nat>)
    requires StrictlyIncreasing(s)
    ensures StrictlyIncreasing(Restrict(s, keep))
  {
    if s != [] {
      RestrictIncreasing(Front(s), keep);
      var r := Restrict(Front(s), keep);
      forall i | 0 <= i < |r| ensures r[i] < Last(s) {
        assert r[i] in Front(s);
      }
    }
  }
}
