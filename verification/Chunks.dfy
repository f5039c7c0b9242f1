/** Splitting a file into chunks and joining them again (`startChunkedUpload` on the
    client, `assembleChunks` on the server), for any element type. */
module Chunks {
  import opened Sequences

  function Offset(size: nat, i: nat): nat {
    i * size
  }

  /** `Math.ceil(length / size)`. */
  function ChunkCount(length: nat, size: nat): nat
    requires size > 0
  {
    (length + size - 1) / size
  }

  /** Chunk `i`: from `i * size` to `min(i * size + size, length)`. */
  function Slice<T>(f: seq<T>, size: nat, i: nat): seq<T> {
    f[Min(Offset(size, i), |f|)..Min(Offset(size, i) + size, |f|)]
  }

  function SplitFile<T>(f: seq<T>, size: nat): seq<seq<T>>
    requires size > 0
  {
    seq(ChunkCount(|f|, size), (i: nat) => Slice(f, size, i))
  }

  function Joined<T>(parts: seq<seq<T>>): seq<T> {
    if parts == [] then [] else Joined(parts[..|parts| - 1]) + parts[|parts| - 1]
  }

  lemma OffsetStep(size: nat, i: nat, next: nat)
    requires next == i + 1
    ensures Offset(size, next) == Offset(size, i) + size
  {
    assert next * size == i * size + size;
  }

  lemma {:induction false} OffsetMonotone(size: nat, i: nat, j: nat)
    requires i <= j
    ensures Offset(size, i) <= Offset(size, j)
    decreases j
  {
    if i < j {
      OffsetMonotone(size, i, j - 1);
      OffsetStep(size, j - 1, j);
    }
  }

  /** A chunk index is below the count exactly when its chunk starts inside the file. */
  lemma CountByOffset(length: nat, size: nat, i: nat)
    requires size > 0
    ensures i < ChunkCount(length, size) <==> Offset(size, i) < length
  {
    var n, q := ChunkCount(length, size), length + size - 1;
    assert q == Offset(size, n) + q % size;
    if i < n {
      OffsetMonotone(size, i, n - 1);
      OffsetStep(size, n - 1, n);
    } else {
      OffsetMonotone(size, n, i);
    }
  }

  lemma SliceShape<T>(f: seq<T>, size: nat, i: nat)
    requires size > 0 && i < ChunkCount(|f|, size)
    ensures Offset(size, i) < |f| && 0 < |Slice(f, size, i)| <= size
    ensures Slice(f, size, i)[0] == f[Offset(size, i)]
    ensures |Slice(f, size, i)| == Min(size, |f| - Offset(size, i))
  {
    CountByOffset(|f|, size, i);
  }

  lemma SliceExtends<T>(f: seq<T>, lo: nat, size: nat, hi: nat)
    requires hi == lo + size
    ensures f[..Min(lo, |f|)] + f[Min(lo, |f|)..Min(lo + size, |f|)] == f[..Min(hi, |f|)]
  {
  }

  ghost predicate Cut<T>(f: seq<T>, size: nat, parts: seq<seq<T>>) {
    forall i :: 0 <= i < |parts| ==> parts[i] == Slice(f, size, i)
  }

  lemma CutFront<T>(f: seq<T>, size: nat, parts: seq<seq<T>>, n: nat)
    requires Cut(f, size, parts) && |parts| == n + 1
    ensures Cut(f, size, parts[..n]) && parts[n] == Slice(f, size, n)
  {
  }

  /** The first `n` chunks are the first `n * size` elements. */
  lemma {:induction false} JoinedPrefix<T>(f: seq<T>, size: nat, parts: seq<seq<T>>, end: nat)
    requires Cut(f, size, parts) && end == Offset(size, |parts|)
    ensures Joined(parts) == f[..Min(end, |f|)]
  {
    if parts != [] {
      var n := |parts| - 1;
      var at := Offset(size, n);
      CutFront(f, size, parts, n);
      JoinedPrefix(f, size, parts[..n], at);
      OffsetStep(size, n, |parts|);
      SliceExtends(f, at, size, end);
    }
  }

  /** Splitting and joining gives the file back. */
  lemma SplitJoined<T>(f: seq<T>, size: nat)
    requires size > 0
    ensures Joined(SplitFile(f, size)) == f
  {
    JoinedPrefix(f, size, SplitFile(f, size), Offset(size, ChunkCount(|f|, size)));
    CountByOffset(|f|, size, ChunkCount(|f|, size));
  }

  // ---- resuming with another chunk size ----

  /** What the session of size `size` holds once the chunks outside `verified` have
      been sent by a client that splits by `other`. */
  function Mixed<T>(f: seq<T>, size: nat, other: nat, verified: set<nat>): seq<seq<T>>
    requires size > 0
  {
    seq(ChunkCount(|f|, size), (i: nat) => if i in verified then Slice(f, size, i) else Slice(f, other, i))
  }

  /** Chunk `i` of the joined parts begins where the parts before it end. */
  lemma {:induction false} PartInJoined<T>(parts: seq<seq<T>>, i: nat)
    requires i < |parts|
    ensures |Joined(parts[..i])| + |parts[i]| <= |Joined(parts)|
    ensures Joined(parts)[|Joined(parts[..i])|..|Joined(parts[..i])| + |parts[i]|] == parts[i]
  {
    var n := |parts| - 1;
    if i < n {
      PartInJoined(parts[..n], i);
      assert parts[..n][..i] == parts[..i];
    }
  }

  /** With distinct elements a part of the file can stand at one place only. */
  lemma PartPlaced<T>(f: seq<T>, parts: seq<seq<T>>, i: nat, size: nat)
    requires Distinct(f) && Joined(parts) == f && i < |parts|
    requires size > 0 && i < ChunkCount(|f|, size) && parts[i] == Slice(f, size, i)
    ensures |Joined(parts[..i])| == Offset(size, i) < |f|
  {
    PartInJoined(parts, i);
    SliceShape(f, size, i);
    var at := |Joined(parts[..i])|;
    assert f[at] == parts[i][0];
  }

  /** Two neighbouring chunks in their places, cut by different sizes, cannot be. */
  lemma NeighboursAgree<T>(f: seq<T>, parts: seq<seq<T>>, i: nat, next: nat, a: nat, b: nat)
    requires Distinct(f) && Joined(parts) == f && next == i + 1 < |parts|
    requires a > 0 && i < ChunkCount(|f|, a) && parts[i] == Slice(f, a, i)
    requires b > 0 && next < ChunkCount(|f|, b) && parts[next] == Slice(f, b, next)
    ensures a == b
  {
    PartPlaced(f, parts, i, a);
    PartPlaced(f, parts, next, b);
    SliceShape(f, a, i);
    assert parts[..next][..i] == parts[..i];
    assert Joined(parts[..next]) == Joined(parts[..i]) + parts[i];
    OffsetStep(a, i, next);
    SameOffset(a, b, next);
  }

  lemma SameOffset(a: nat, b: nat, i: nat)
    requires i > 0
    ensures Offset(a, i) == Offset(b, i) <==> a == b
  {
    if a < b {
      assert i * b == i * a + i * (b - a);
    } else if b < a {
      assert i * a == i * b + i * (a - b);
    }
  }

  lemma {:induction false} Neighbours(verified: set<nat>, n: nat, yes: nat, no: nat) returns (i: nat)
    requires yes < n && no < n && yes in verified && no !in verified
    ensures i + 1 < n && (i in verified <==> i + 1 !in verified)
    decreases yes + no
  {
    var high := if yes < no then no else yes;
    if (high - 1 in verified) == (high in verified) {
      i := Neighbours(verified, n, if yes < no then yes else high - 1, if yes < no then high - 1 else no);
    } else {
      i := high - 1;
    }
  }

  ghost predicate AllSent(verified: set<nat>, n: nat) {
    forall i :: 0 <= i < n ==> i in verified
  }

  lemma MismatchShows<T>(f: seq<T>, size: nat, other: nat, verified: set<nat>, yes: nat, no: nat)
    requires size > 0 && other > 0 && Distinct(f)
    requires forall i :: 0 <= i < ChunkCount(|f|, size) ==> i in verified || i < ChunkCount(|f|, other)
    requires yes < ChunkCount(|f|, size) && yes in verified
    requires no < ChunkCount(|f|, size) && no !in verified
    requires Joined(Mixed(f, size, other, verified)) == f
    ensures size == other
  {
    var n, parts := ChunkCount(|f|, size), Mixed(f, size, other, verified);
    var i := Neighbours(verified, n, yes, no);
    var next := i + 1;
    MixedAt(f, size, other, verified, i);
    MixedAt(f, size, other, verified, next);
    if i in verified {
      NeighboursAgree(f, parts, i, next, size, other);
    } else {
      NeighboursAgree(f, parts, i, next, other, size);
    }
  }

  lemma MixedAt<T>(f: seq<T>, size: nat, other: nat, verified: set<nat>, i: nat)
    requires size > 0 && i < ChunkCount(|f|, size)
    ensures |Mixed(f, size, other, verified)| == ChunkCount(|f|, size)
    ensures Mixed(f, size, other, verified)[i] == if i in verified then Slice(f, size, i) else Slice(f, other, i)
  {
  }

  /** For files with distinct elements, and in one direction for all. */
  lemma ResumeDistinctIff<T>(f: seq<T>, size: nat, other: nat, verified: set<nat>)
    requires size > 0 && other > 0 && verified != {}
    requires forall i :: i in verified ==> i < ChunkCount(|f|, size)
    requires forall i :: 0 <= i < ChunkCount(|f|, size) ==> i in verified || i < ChunkCount(|f|, other)
    ensures size == other || AllSent(verified, ChunkCount(|f|, size)) ==> Joined(Mixed(f, size, other, verified)) == f
    ensures Distinct(f) && Joined(Mixed(f, size, other, verified)) == f ==>
              size == other || AllSent(verified, ChunkCount(|f|, size))
  {
    var n, mixed := ChunkCount(|f|, size), Mixed(f, size, other, verified);
    if size == other || AllSent(verified, n) {
      assert mixed == SplitFile(f, size);
      SplitJoined(f, size);
    } else if Distinct(f) && Joined(mixed) == f {
      var no :| 0 <= no < n && no !in verified;
      var yes :| yes in verified;
      MismatchShows(f, size, other, verified, yes, no);
    }
  }

  // ---- any two symbols suffice ----

  function Mapped<S, T>(g: S -> T, s: seq<S>): seq<T> {
    seq(|s|, i requires 0 <= i < |s| => g(s[i]))
  }

  function MappedParts<S, T>(g: S -> T, parts: seq<seq<S>>): seq<seq<T>> {
    seq(|parts|, i requires 0 <= i < |parts| => Mapped(g, parts[i]))
  }

  lemma MappedAppend<S, T>(g: S -> T, a: seq<S>, b: seq<S>)
    ensures Mapped(g, a + b) == Mapped(g, a) + Mapped(g, b)
  {
  }

  /** Joining does not look at the elements. */
  lemma {:induction false} JoinedMapped<S, T>(g: S -> T, parts: seq<seq<S>>)
    ensures Joined(MappedParts(g, parts)) == Mapped(g, Joined(parts))
  {
    if parts != [] {
      var n := |parts| - 1;
      JoinedMapped(g, parts[..n]);
      MappedAppend(g, Joined(parts[..n]), parts[n]);
      assert MappedParts(g, parts)[..n] == MappedParts(g, parts[..n]);
    }
  }

  /** Nor does cutting. */
  lemma SliceMapped<S, T>(g: S -> T, f: seq<S>, size: nat, i: nat)
    ensures Slice(Mapped(g, f), size, i) == Mapped(g, Slice(f, size, i))
  {
  }

  lemma MixedMapped<S, T>(g: S -> T, f: seq<S>, size: nat, other: nat, verified: set<nat>)
    requires size > 0
    ensures Mixed(Mapped(g, f), size, other, verified) == MappedParts(g, Mixed(f, size, other, verified))
  {
    var a, b := Mixed(Mapped(g, f), size, other, verified), MappedParts(g, Mixed(f, size, other, verified));
    forall i: nat | i < |a|
      ensures a[i] == b[i]
    {
      SliceMapped(g, f, size, i);
      SliceMapped(g, f, other, i);
    }
  }

  ghost predicate Restores<T>(f: seq<T>, size: nat, other: nat, verified: set<nat>)
    requires size > 0
  {
    Joined(Mixed(f, size, other, verified)) == f
  }

  /** The verified chunks belong to the session, and every chunk it still lacks is one the
      client sends. A client that cuts more chunks than the session has sends those, is
      refused at the first one beyond, and never asks for completion; a later start at
      the old size then finishes the session with the mixed chunks. */
  ghost predicate CanComplete(length: nat, size: nat, other: nat, verified: set<nat>)
    requires size > 0 && other > 0
  {
    && (forall i :: i in verified ==> i < ChunkCount(length, size))
    && forall i :: 0 <= i < ChunkCount(length, size) ==> i in verified || i < ChunkCount(length, other)
  }

  function Positions(length: nat): seq<nat> {
    seq(length, (i: nat) => i)
  }

  /** Colouring one position of the file that the resumed upload puts elsewhere, or
      loses, gives a file it does not restore, whatever its length. */
  lemma BadFile<T>(length: nat, size: nat, other: nat, verified: set<nat>, zero: T, one: T) returns (f: seq<T>)
    requires size > 0 && other > 0 && verified != {} && zero != one
    requires CanComplete(length, size, other, verified)
    requires size != other && !AllSent(verified, ChunkCount(length, size))
    ensures |f| == length && !Restores(f, size, other, verified)
  {
    var places := Positions(length);
    var moved := Joined(Mixed(places, size, other, verified));
    ResumeDistinctIff(places, size, other, verified);
    var marked: nat := if |moved| != length then length else FirstMoved(moved, places);
    var colour := (i: nat) => if i == marked then one else zero;
    f := Mapped(colour, places);
    MixedMapped(colour, places, size, other, verified);
    JoinedMapped(colour, Mixed(places, size, other, verified));
    if |moved| == length {
      assert Mapped(colour, moved)[marked] == zero && f[marked] == one;
    }
  }

  function FirstMoved(a: seq<nat>, b: seq<nat>): (i: nat)
    requires |a| == |b| && a != b
    ensures i < |a| && a[i] != b[i]
  {
    if a[0] != b[0] then 0
    else
      assert a == [a[0]] + a[1..] && b == [b[0]] + b[1..];
      FirstMoved(a[1..], b[1..]) + 1
  }

  /** A session resumed with another chunk size gives every file of its length back if and
      only if the sizes are the same or nothing was left to send, over any elements of
      which there are at least two. */
  lemma ResumeIff<T(!new)>(length: nat, size: nat, other: nat, verified: set<nat>, zero: T, one: T)
    requires size > 0 && other > 0 && verified != {} && zero != one
    requires CanComplete(length, size, other, verified)
    ensures (forall f: seq<T> :: |f| == length ==> Restores(f, size, other, verified))
            <==> size == other || AllSent(verified, ChunkCount(length, size))
  {
    if size == other || AllSent(verified, ChunkCount(length, size)) {
      forall f: seq<T> | |f| == length
        ensures Restores(f, size, other, verified)
      {
        ResumeDistinctIff(f, size, other, verified);
      }
    } else {
      var f := BadFile(length, size, other, verified, zero, one);
    }
  }
}
