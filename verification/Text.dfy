/** The string operations the services use, over ASCII. */
module Text {
  import opened Sequences

  predicate Blank(c: char) {
    c == ' ' || c == '\t' || c == '\n' || c == '\U{0B}' || c == '\U{0C}' || c == '\r'
  }

  function TrimStart(s: string): (r: string)
    ensures r != [] ==> !Blank(r[0])
    ensures |r| <= |s| && r == s[|s| - |r|..]
    ensures s != [] && !Blank(s[0]) ==> r == s
  {
    if s == [] || !Blank(s[0]) then s else TrimStart(s[1..])
  }

  function TrimEnd(s: string): (r: string)
    ensures r != [] ==> !Blank(r[|r| - 1])
    ensures r <= s
    ensures s != [] && !Blank(s[|s| - 1]) ==> r == s
  {
    if s == [] || !Blank(s[|s| - 1]) then s else TrimEnd(s[..|s| - 1])
  }

  /** `String.prototype.trim`. */
  function Trim(s: string): string {
    TrimEnd(TrimStart(s))
  }

  function LowerChar(c: char): char {
    if 'A' <= c <= 'Z' then (c as int + 32) as char else c
  }

  /** `String.prototype.toLowerCase`. */
  function Lower(s: string): string {
    seq(|s|, i requires 0 <= i < |s| => LowerChar(s[i]))
  }

  /** The same character, or the same ASCII letter in the other case. */
  predicate SameLetter(a: char, b: char) {
    a == b || ('A' <= a <= 'Z' && b as int == a as int + 32) || ('A' <= b <= 'Z' && a as int == b as int + 32)
  }

  lemma LowerIff(a: string, b: string)
    ensures Lower(a) == Lower(b) <==> |a| == |b| && forall i :: 0 <= i < |a| ==> SameLetter(a[i], b[i])
  {
    if Lower(a) == Lower(b) {
      assert |Lower(a)| == |Lower(b)|;
      forall i | 0 <= i < |a| ensures SameLetter(a[i], b[i]) {
        assert Lower(a)[i] == Lower(b)[i];
      }
    }
  }

  predicate AllBlank(s: string) {
    forall i :: 0 <= i < |s| ==> Blank(s[i])
  }

  lemma {:induction false} TrimStartIs(s: string)
    ensures AllBlank(s[..|s| - |TrimStart(s)|])
  {
    if s != [] && Blank(s[0]) {
      var rest := s[1..];
      TrimStartIs(rest);
      BlankBefore(s, rest, |rest| - |TrimStart(rest)|);
    }
  }

  lemma BlankBefore(s: string, rest: string, n: nat)
    requires s != [] && Blank(s[0]) && rest == s[1..] && n <= |rest| && AllBlank(rest[..n])
    ensures AllBlank(s[..n + 1])
  {
    assert forall i :: 0 < i < n + 1 ==> s[i] == rest[..n][i - 1];
  }

  lemma {:induction false} TrimEndIs(s: string)
    ensures AllBlank(s[|TrimEnd(s)|..])
  {
    if s != [] && Blank(s[|s| - 1]) {
      var front := s[..|s| - 1];
      TrimEndIs(front);
      var n := |TrimEnd(front)|;
      assert forall i :: n <= i < |front| ==> s[i] == front[n..][i - n];
    }
  }

  lemma TrimEnds(s: string)
    ensures Trim(s) != [] ==> !Blank(Trim(s)[0]) && !Blank(Trim(s)[|Trim(s)| - 1])
  {
  }

  /** Trimming takes off blanks at both ends, and all of them. */
  lemma TrimIs(s: string) returns (before: string, after: string)
    ensures s == before + (Trim(s) + after) && AllBlank(before) && AllBlank(after)
    ensures Trim(s) != [] ==> !Blank(Trim(s)[0]) && !Blank(Trim(s)[|Trim(s)| - 1])
  {
    var t := TrimStart(s);
    TrimStartIs(s);
    TrimEndIs(t);
    TrimEnds(s);
    before, after := s[..|s| - |t|], t[|Trim(s)|..];
    InnerPart(s, t, Trim(s), before, after);
  }

  lemma InnerPart(s: string, t: string, u: string, before: string, after: string)
    requires |t| <= |s| && t == s[|s| - |t|..] && u <= t
    requires before == s[..|s| - |t|] && after == t[|u|..]
    ensures s == before + (u + after)
  {
    assert t == u + after;
  }

  lemma SkipBlank(first: char, rest: string)
    requires Blank(first)
    ensures TrimStart([first] + rest) == TrimStart(rest)
  {
    assert ([first] + rest)[1..] == rest;
  }

  lemma {:induction false} TrimStartSkips(before: string, rest: string)
    requires AllBlank(before) && rest != [] && !Blank(rest[0])
    ensures TrimStart(before + rest) == rest
  {
    if before == [] {
      assert before + rest == rest;
    } else {
      var first, more := before[0], before[1..];
      assert before == [first] + more;
      TrimStartSkips(more, rest);
      Reassociate([first], more, rest);
      SkipBlank(first, more + rest);
    }
  }

  predicate HexDigit(c: char) {
    '0' <= c <= '9' || 'a' <= c <= 'f'
  }

  // ---- splitting ----

  predicate Free(s: string, c: char) {
    c !in s
  }

  function Head(s: string, c: char): (r: string)
    ensures r <= s && Free(r, c)
    ensures Free(s, c) ==> r == s
    ensures !Free(s, c) ==> |r| < |s| && s[|r|] == c
  {
    if s == [] || s[0] == c then [] else [s[0]] + Head(s[1..], c)
  }

  /** `s.split(c)`. */
  function Split(s: string, c: char): (r: seq<string>)
    ensures r != []
    decreases |s|
  {
    var head := Head(s, c);
    if head == s then [s] else [head] + Split(s[|head| + 1..], c)
  }

  /** `parts.join(c)`. */
  function Join(parts: seq<string>, c: char): string
    requires parts != []
  {
    if |parts| == 1 then parts[0] else parts[0] + [c] + Join(parts[1..], c)
  }

  predicate AllFree(parts: seq<string>, c: char) {
    forall i :: 0 <= i < |parts| ==> Free(parts[i], c)
  }

  lemma {:induction false} SplitFree(s: string, c: char)
    ensures AllFree(Split(s, c), c)
    decreases |s|
  {
    var head := Head(s, c);
    if head != s {
      SplitFree(s[|head| + 1..], c);
    }
  }

  lemma JoinCons(first: string, rest: seq<string>, c: char)
    requires rest != []
    ensures Join([first] + rest, c) == first + [c] + Join(rest, c)
  {
    assert ([first] + rest)[1..] == rest;
  }

  lemma CutAt(s: string, head: string, c: char, tail: string)
    requires |head| < |s| && head == s[..|head|] && s[|head|] == c && tail == s[|head| + 1..]
    ensures s == head + [c] + tail
  {
  }

  lemma {:induction false} JoinOfSplit(s: string, c: char)
    ensures Join(Split(s, c), c) == s
    decreases |s|
  {
    var head := Head(s, c);
    if head != s {
      var tail := s[|head| + 1..];
      JoinOfSplit(tail, c);
      JoinCons(head, Split(tail, c), c);
      CutAt(s, head, c, tail);
    }
  }

  lemma {:induction false} HeadOf(a: string, c: char, b: string)
    requires Free(a, c)
    ensures Head(a + [c] + b, c) == a
  {
    if a == [] {
      assert (a + [c] + b)[0] == c;
    } else {
      HeadOf(a[1..], c, b);
      assert (a + [c] + b)[1..] == a[1..] + [c] + b;
    }
  }

  lemma HeadCons(s: string, first: char, rest: string, c: char)
    requires s == [first] + rest && first != c
    ensures Head(s, c) == [first] + Head(rest, c)
  {
    assert s[1..] == rest;
  }

  lemma {:induction false} HeadPast(u: string, tail: string, c: char)
    requires Free(u, c)
    ensures Head(u + tail, c) == u + Head(tail, c)
  {
    if u == [] {
      assert u + tail == tail;
    } else {
      var first, rest := u[0], u[1..];
      assert u == [first] + rest;
      HeadPast(rest, tail, c);
      Reassociate([first], rest, tail);
      HeadCons(u + tail, first, rest + tail, c);
      Reassociate([first], rest, Head(tail, c));
    }
  }

  /** What does not begin here begins later. */
  lemma BeforeTail(s: string, pattern: string)
    requires s != [] && !StartsWith(s, pattern)
    ensures Before(s, pattern) == [s[0]] + Before(s[1..], pattern)
    ensures Contains(s, pattern) == Contains(s[1..], pattern)
  {
  }

  lemma SplitAtFirst(s: string, head: string, c: char, tail: string)
    requires s == head + [c] + tail && Free(head, c)
    ensures Split(s, c) == [head] + Split(tail, c)
  {
    HeadOf(head, c, tail);
    assert s[|head| + 1..] == tail;
  }

  lemma {:induction false} SplitOfJoin(parts: seq<string>, c: char)
    requires parts != [] && AllFree(parts, c)
    ensures Split(Join(parts, c), c) == parts
  {
    var first, rest := parts[0], parts[1..];
    assert parts == [first] + rest && Free(first, c);
    if rest == [] {
      assert Head(first, c) == first;
    } else {
      assert forall i :: 0 <= i < |rest| ==> Free(parts[i + 1], c) && rest[i] == parts[i + 1];
      SplitOfJoin(rest, c);
      JoinCons(first, rest, c);
      SplitAtFirst(Join(parts, c), first, c, Join(rest, c));
    }
  }

  /** The text up to and including the last `c`, or nothing. */
  function Through(s: string, c: char): (r: string)
    ensures r <= s
    ensures r != [] ==> r[|r| - 1] == c
    ensures Free(s[|r|..], c)
  {
    if s == [] || s[|s| - 1] == c then s else
      var r := Through(s[..|s| - 1], c);
      assert s[|r|..] == s[|r|..|s| - 1] + [s[|s| - 1]];
      r
  }

  lemma {:induction false} SplitAppend(s: string, x: string, c: char, y: string)
    requires s == x + [c] + y
    ensures Split(s, c) == Split(x, c) + Split(y, c)
    decreases |x|
  {
    var head := Head(x, c);
    if head == x {
      SplitAtFirst(s, x, c, y);
    } else {
      var rest := x[|head| + 1..];
      var more := rest + [c] + y;
      SplitAppend(more, rest, c, y);
      CutAt(x, head, c, rest);
      Regroup(head, [c], rest, y);
      SplitAtFirst(s, head, c, more);
      SplitAtFirst(x, head, c, rest);
      Reassociate([head], Split(rest, c), Split(y, c));
    }
  }

  lemma ThroughOccurs(s: string, c: char)
    ensures Free(s, c) ==> Through(s, c) == []
  {
    var r := Through(s, c);
    assert r <= s;
    if r != [] {
      assert s[|r| - 1] == c;
    }
  }

  lemma Regroup(head: string, c: string, rest: string, y: string)
    ensures (head + c + rest) + c + y == head + c + (rest + c + y)
  {
  }

  lemma {:induction false} ThroughAppend(a: string, b: string, c: char)
    requires a != [] && a[|a| - 1] == c
    ensures Through(a + b, c) == a + Through(b, c)
  {
    if b == [] {
      assert a + b == a;
    } else if b[|b| - 1] != c {
      ThroughAppend(a, b[..|b| - 1], c);
      assert (a + b)[..|a + b| - 1] == a + b[..|b| - 1];
    }
  }

  lemma NoStartAcross(s: string, p: string, c: char, pattern: string)
    requires p + [c] <= s && !StartsWith(p, pattern) && Free(pattern, c)
    ensures !StartsWith(s, pattern)
  {
    if |pattern| <= |p| {
      assert s[..|pattern|] == p[..|pattern|];
    } else {
      assert s[|p|] == c && pattern[|p|] != c;
    }
  }

  /** Without an occurrence in `p`, and with a character the pattern lacks after it,
      the first occurrence comes after both. */
  lemma {:induction false} BeforeSkips(s: string, p: string, c: char, pattern: string)
    requires p + [c] <= s && !Contains(p, pattern) && Free(pattern, c)
    ensures p + [c] <= Before(s, pattern)
    decreases |p|
  {
    NoStartAcross(s, p, c, pattern);
    if p != [] {
      var tail := s[1..];
      assert p[1..] + [c] <= tail;
      BeforeSkips(tail, p[1..], c, pattern);
    }
  }

  lemma ColonInTail(p: string, e: string, q: string, d: string)
    requires p + [':'] + e == q + [':'] + d && |p| < |q|
    ensures !Free(e, ':')
  {
    var s := p + [':'] + e;
    assert s[|q|] == ':' && s[|q|] == e[|q| - |p| - 1];
  }

  lemma TailInjective(p: string, e: string, q: string, d: string)
    requires Free(e, ':') && Free(d, ':')
    requires p + [':'] + e == q + [':'] + d
    ensures p == q && e == d
  {
    var s := p + [':'] + e;
    if |p| < |q| {
      ColonInTail(p, e, q, d);
    } else if |q| < |p| {
      ColonInTail(q, d, p, e);
    } else {
      assert s[..|p|] == p && s[..|q|] == q;
      assert s[|p| + 1..] == e && s[|q| + 1..] == d;
    }
  }

  lemma TrimFixed(s: string)
    requires s != [] && !Blank(s[0]) && !Blank(s[|s| - 1])
    ensures Trim(s) == s
  {
  }

  lemma TrimKeeps(s: string, c: char)
    requires Free(s, c)
    ensures Free(Trim(s), c)
    ensures Trim(s) != [] ==> !Blank(Trim(s)[0]) && !Blank(Trim(s)[|Trim(s)| - 1])
  {
  }

  predicate StartsWith(s: string, pattern: string) {
    |pattern| <= |s| && s[..|pattern|] == pattern
  }

  predicate EndsWith(s: string, pattern: string) {
    |pattern| <= |s| && s[|s| - |pattern|..] == pattern
  }

  lemma EndsWithIff(s: string, pattern: string)
    ensures EndsWith(s, pattern) <==> exists stem :: s == stem + pattern
  {
    if EndsWith(s, pattern) {
      assert s == s[..|s| - |pattern|] + pattern;
    }
  }

  predicate Contains(s: string, pattern: string) {
    StartsWith(s, pattern) || (s != [] && Contains(s[1..], pattern))
  }

  /** The text before the first `pattern`, or all of it. */
  function Before(s: string, pattern: string): (r: string)
    ensures r <= s
    ensures Contains(s, pattern) ==> |r| + |pattern| <= |s| && StartsWith(s[|r|..], pattern)
    ensures !Contains(s, pattern) ==> r == s
  {
    if s == [] || StartsWith(s, pattern) then [] else [s[0]] + Before(s[1..], pattern)
  }

  /** `s.split(pattern)[1]`. */
  function SecondPiece(s: string, pattern: string): string
    requires Contains(s, pattern)
  {
    Before(s[|Before(s, pattern)| + |pattern|..], pattern)
  }
}
