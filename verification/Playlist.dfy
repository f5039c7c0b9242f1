/** Rewriting the links of an m3u8 playlist, line by line. */
module Playlist {
  import opened Sequences
  import opened Text

  const OPENER := "URI=\""

  function Apply(f: string -> string, uris: seq<string>): seq<string> {
    seq(|uris|, i requires 0 <= i < |uris| => f(uris[i]))
  }

  // ---- URI attributes of a tag ----

  /** The attribute value after the opener: up to the closing quote. */
  function ValueOf(s: string): string
    requires StartsWith(s, OPENER)
  {
    Head(s[|OPENER|..], '"')
  }

  /** The pattern `URI="([^"]+)"` matches here. */
  predicate AttrHere(s: string) {
    StartsWith(s, OPENER) && ValueOf(s) != [] && !Free(s[|OPENER|..], '"')
  }

  function AfterAttr(s: string): (r: string)
    requires AttrHere(s)
    ensures |r| < |s|
    ensures s == OPENER + ValueOf(s) + ['"'] + r
  {
    s[|OPENER| + |ValueOf(s)| + 1..]
  }

  /** Every match replaced, from left to right. */
  function RewriteAttrs(f: string -> string, s: string): string
    decreases |s|
  {
    if s == [] then []
    else if AttrHere(s) then OPENER + f(ValueOf(s)) + ['"'] + RewriteAttrs(f, AfterAttr(s))
    else [s[0]] + RewriteAttrs(f, s[1..])
  }

  function AttrUris(s: string): seq<string>
    decreases |s|
  {
    if s == [] then []
    else if AttrHere(s) then [ValueOf(s)] + AttrUris(AfterAttr(s))
    else AttrUris(s[1..])
  }

  // ---- lines and playlists ----

  predicate IsTag(trimmed: string) {
    trimmed != [] && trimmed[0] == '#'
  }

  function RewriteLine(f: string -> string, line: string): string {
    var trimmed := Trim(line);
    if trimmed == [] then line
    else if IsTag(trimmed) then
      if Contains(trimmed, OPENER) then RewriteAttrs(f, trimmed) else line
    else f(trimmed)
  }

  function RewriteLines(f: string -> string, lines: seq<string>): (r: seq<string>)
    ensures |r| == |lines|
  {
    seq(|lines|, i requires 0 <= i < |lines| => RewriteLine(f, lines[i]))
  }

  function Rewrite(f: string -> string, playlist: string): string {
    Join(RewriteLines(f, Split(playlist, '\n')), '\n')
  }

  function TrimmedLinks(trimmed: string): seq<string> {
    if trimmed == [] then [] else if IsTag(trimmed) then AttrUris(trimmed) else [trimmed]
  }

  /** What a player follows: the URI lines and the URI attributes. */
  function LineLinks(line: string): seq<string> {
    TrimmedLinks(Trim(line))
  }

  function LinksOf(lines: seq<string>): seq<string> {
    if lines == [] then [] else LinksOf(lines[..|lines| - 1]) + LineLinks(lines[|lines| - 1])
  }

  function Links(playlist: string): seq<string> {
    LinksOf(Split(playlist, '\n'))
  }

  /** The rewriting appends to a link, without a line break, a quote or a final blank. */
  predicate Appended(u: string, marked: string) {
    && u < marked && Free(marked[|u|..], '\n') && Free(marked[|u|..], '"')
    && !Blank(marked[|marked| - 1])
  }

  ghost predicate Appends(f: string -> string) {
    forall u :: Appended(u, f(u))
  }

  // ---- attributes survive ----

  lemma {:induction false} ShortKept(f: string -> string, s: string)
    requires |s| < |OPENER| || Free(s, '"')
    ensures RewriteAttrs(f, s) == s
    decreases |s|
  {
    if s != [] {
      ShortKept(f, s[1..]);
    }
  }

  lemma {:induction false} HeadKept(f: string -> string, s: string, n: nat)
    requires n <= |s| && n <= |OPENER|
    ensures StartsWith(RewriteAttrs(f, s), s[..n])
    decreases n
  {
    if n > 0 && !AttrHere(s) {
      HeadKept(f, s[1..], n - 1);
      assert s[..n] == [s[0]] + s[1..][..n - 1];
    } else if n > 0 {
      assert s[..n] == OPENER[..n];
    }
  }

  lemma RewriteCons(f: string -> string, s: string, first: char, rest: string)
    requires s == [first] + rest && !AttrHere(s)
    ensures RewriteAttrs(f, s) == [first] + RewriteAttrs(f, rest)
  {
    assert s[1..] == rest;
  }

  lemma NotHere(s: string, first: char, rest: string)
    requires s == [first] + rest && first != 'U'
    ensures !AttrHere(s)
  {
    assert s[0] != OPENER[0];
  }

  /** Text that no opener can begin in is passed over. */
  lemma {:induction false} PassedOver(f: string -> string, skipped: string, rest: string)
    requires 'U' !in skipped
    ensures RewriteAttrs(f, skipped + rest) == skipped + RewriteAttrs(f, rest)
    decreases |skipped|
  {
    if skipped == [] {
      assert skipped + rest == rest;
    } else {
      var first, tail := skipped[0], skipped[1..];
      assert skipped == [first] + tail;
      PassedOver(f, tail, rest);
      Reassociate([first], tail, rest);
      NotHere(skipped + rest, first, tail + rest);
      RewriteCons(f, skipped + rest, first, tail + rest);
      Reassociate([first], tail, RewriteAttrs(f, rest));
    }
  }

  const OPENER_TAIL := "RI=\""

  lemma OpenerSplits(s: string, rest: string)
    requires StartsWith(s, OPENER) && rest == s[|OPENER|..]
    ensures OPENER == ['U'] + OPENER_TAIL && s == ['U'] + (OPENER_TAIL + rest)
  {
    assert OPENER == ['U'] + OPENER_TAIL;
    assert s == OPENER + rest;
    Reassociate(['U'], OPENER_TAIL, rest);
  }

  /** An opener that begins no match is passed over whole. */
  lemma OpenerKept(f: string -> string, s: string, rest: string)
    requires StartsWith(s, OPENER) && !AttrHere(s) && rest == s[|OPENER|..]
    ensures RewriteAttrs(f, s) == OPENER + RewriteAttrs(f, rest)
  {
    OpenerSplits(s, rest);
    RewriteCons(f, s, 'U', OPENER_TAIL + rest);
    PassedOver(f, OPENER_TAIL, rest);
    Reassociate(['U'], OPENER_TAIL, RewriteAttrs(f, rest));
  }

  /** Rewriting creates no match where there was none. */
  lemma StillNoAttr(f: string -> string, s: string)
    requires s != [] && !AttrHere(s)
    ensures !AttrHere(RewriteAttrs(f, s))
  {
    var out := RewriteAttrs(f, s);
    if |s| < |OPENER| {
      ShortKept(f, s);
    } else if s[..|OPENER|] == OPENER {
      var rest := s[|OPENER|..];
      OpenerKept(f, s, rest);
      assert out[|OPENER|..] == RewriteAttrs(f, rest);
      if Free(rest, '"') {
        ShortKept(f, rest);
      } else {
        HeadKept(f, rest, 1);
      }
    } else {
      HeadKept(f, s, |OPENER|);
    }
  }

  lemma ApplyCons(f: string -> string, u: string, rest: seq<string>)
    ensures Apply(f, [u] + rest) == [f(u)] + Apply(f, rest)
  {
  }

  lemma {:induction false} AttrsKept(f: string -> string, s: string)
    requires Appends(f)
    ensures AttrUris(RewriteAttrs(f, s)) == Apply(f, AttrUris(s))
    decreases |s|
  {
    if s == [] {
    } else if AttrHere(s) {
      var u, tail := ValueOf(s), AfterAttr(s);
      var rest := RewriteAttrs(f, tail);
      AttrsKept(f, tail);
      AttrRead(f(u), rest, u);
      ApplyCons(f, u, AttrUris(tail));
      assert RewriteAttrs(f, s) == OPENER + f(u) + ['"'] + rest;
    } else {
      AttrsKept(f, s[1..]);
      StillNoAttr(f, s);
      assert RewriteAttrs(f, s)[1..] == RewriteAttrs(f, s[1..]);
    }
  }

  lemma AttrRead(marked: string, rest: string, u: string)
    requires Free(u, '"') && Appended(u, marked)
    ensures AttrUris(OPENER + marked + ['"'] + rest) == [marked] + AttrUris(rest)
  {
    var s, value := OPENER + marked + ['"'] + rest, marked + ['"'] + rest;
    assert s == OPENER + value && s[|OPENER|..] == value;
    assert marked == u + marked[|u|..];
    HeadOf(marked, '"', rest);
    AttrCons(s, value, marked, rest);
  }

  lemma AttrCons(s: string, value: string, marked: string, rest: string)
    requires StartsWith(s, OPENER) && s[|OPENER|..] == value == marked + ['"'] + rest
    requires Head(value, '"') == marked != []
    ensures AttrUris(s) == [marked] + AttrUris(rest)
  {
    assert value[|marked|] == '"';
    assert AttrHere(s);
    assert AfterAttr(s) == value[|marked| + 1..] == rest;
  }

  // ---- lines survive ----

  lemma {:induction false} AttrsEnd(f: string -> string, s: string)
    requires s != []
    ensures var out := RewriteAttrs(f, s); out != [] && out[|out| - 1] == s[|s| - 1] && out[0] == s[0]
    decreases |s|
  {
    if AttrHere(s) {
      if AfterAttr(s) != [] {
        AttrsEnd(f, AfterAttr(s));
      }
    } else if |s| > 1 {
      AttrsEnd(f, s[1..]);
    }
  }

  lemma {:induction false} AttrsOneLine(f: string -> string, s: string)
    requires Appends(f) && Free(s, '\n')
    ensures Free(RewriteAttrs(f, s), '\n')
    decreases |s|
  {
    if s != [] {
      if AttrHere(s) {
        var u := ValueOf(s);
        AttrsOneLine(f, AfterAttr(s));
        assert Free(u, '\n');
        assert f(u) == u + f(u)[|u|..];
      } else {
        AttrsOneLine(f, s[1..]);
      }
    }
  }

  lemma {:induction false} NoOpenerNoUris(s: string)
    requires !Contains(s, OPENER)
    ensures AttrUris(s) == []
    decreases |s|
  {
    if s != [] {
      NoOpenerNoUris(s[1..]);
    }
  }

  /** `out` is one line with the links of `trimmed`, rewritten. */
  ghost predicate Keeps(f: string -> string, trimmed: string, out: string) {
    Free(out, '\n') && TrimmedLinks(Trim(out)) == Apply(f, TrimmedLinks(trimmed))
  }

  lemma UriLineKept(f: string -> string, u: string)
    requires Appends(f) && u != [] && !Blank(u[0]) && !IsTag(u) && Free(u, '\n')
    ensures Keeps(f, u, f(u))
  {
    assert Appended(u, f(u));
    assert f(u)[0] == u[0];
    assert f(u) == u + f(u)[|u|..];
    TrimFixed(f(u));
  }

  lemma TagLineKept(f: string -> string, t: string)
    requires Appends(f) && IsTag(t) && !Blank(t[|t| - 1]) && Free(t, '\n')
    ensures Keeps(f, t, RewriteAttrs(f, t))
  {
    var out := RewriteAttrs(f, t);
    AttrsOneLine(f, t);
    AttrsEnd(f, t);
    AttrsKept(f, t);
    TagTrimmed(out);
  }

  lemma TagTrimmed(out: string)
    requires IsTag(out) && !Blank(out[|out| - 1])
    ensures Trim(out) == out
  {
    TrimFixed(out);
  }

  lemma NoLinks(f: string -> string, trimmed: string)
    requires trimmed == [] || (IsTag(trimmed) && !Contains(trimmed, OPENER))
    ensures TrimmedLinks(trimmed) == [] == Apply(f, TrimmedLinks(trimmed))
  {
    if trimmed != [] {
      NoOpenerNoUris(trimmed);
    }
  }

  lemma PlainLineKept(f: string -> string, line: string, trimmed: string)
    requires Free(line, '\n') && trimmed == Trim(line)
    requires trimmed == [] || (IsTag(trimmed) && !Contains(trimmed, OPENER))
    ensures Keeps(f, trimmed, line)
  {
    NoLinks(f, trimmed);
  }

  /** A rewritten line is one line with the same links, rewritten. */
  lemma LineKept(f: string -> string, line: string)
    requires Appends(f) && Free(line, '\n')
    ensures Keeps(f, Trim(line), RewriteLine(f, line))
  {
    var trimmed := Trim(line);
    TrimKeeps(line, '\n');
    if trimmed == [] || (IsTag(trimmed) && !Contains(trimmed, OPENER)) {
      PlainLineKept(f, line, trimmed);
    } else if IsTag(trimmed) {
      TagLineKept(f, trimmed);
    } else {
      UriLineKept(f, trimmed);
    }
  }

  lemma ApplyAppend(f: string -> string, a: seq<string>, b: seq<string>)
    ensures Apply(f, a + b) == Apply(f, a) + Apply(f, b)
  {
  }

  lemma LinksPush(lines: seq<string>, line: string)
    ensures LinksOf(lines + [line]) == LinksOf(lines) + LineLinks(line)
  {
    assert (lines + [line])[..|lines|] == lines;
  }

  lemma RewriteLinesPush(f: string -> string, lines: seq<string>, line: string)
    ensures RewriteLines(f, lines + [line]) == RewriteLines(f, lines) + [RewriteLine(f, line)]
  {
    assert (lines + [line])[..|lines|] == lines && (lines + [line])[|lines|] == line;
  }

  lemma FreePush(lines: seq<string>, line: string)
    ensures AllFree(lines + [line], '\n') <==> AllFree(lines, '\n') && Free(line, '\n')
  {
    if AllFree(lines + [line], '\n') {
      assert (lines + [line])[|lines|] == line;
      assert forall i :: 0 <= i < |lines| ==> lines[i] == (lines + [line])[i];
    }
  }

  lemma LineLinksKept(f: string -> string, line: string, out: string)
    requires Appends(f) && Free(line, '\n') && out == RewriteLine(f, line)
    ensures Free(out, '\n') && LineLinks(out) == Apply(f, LineLinks(line))
  {
    LineKept(f, line);
  }

  lemma LinesKeptStep(f: string -> string, front: seq<string>, last: string, before: seq<string>, out: string)
    requires LinksOf(before) == Apply(f, LinksOf(front)) && LineLinks(out) == Apply(f, LineLinks(last))
    ensures LinksOf(before + [out]) == Apply(f, LinksOf(front + [last]))
  {
    LinksPush(front, last);
    LinksPush(before, out);
    ApplyAppend(f, LinksOf(front), LineLinks(last));
  }

  lemma {:induction false} LinesKept(f: string -> string, lines: seq<string>)
    requires Appends(f) && AllFree(lines, '\n')
    ensures AllFree(RewriteLines(f, lines), '\n')
    ensures LinksOf(RewriteLines(f, lines)) == Apply(f, LinksOf(lines))
  {
    if lines == [] {
      assert RewriteLines(f, lines) == [];
    } else {
      var front, last := lines[..|lines| - 1], lines[|lines| - 1];
      assert lines == front + [last];
      FreePush(front, last);
      LinesKept(f, front);
      var out := RewriteLine(f, last);
      LineLinksKept(f, last, out);
      RewriteLinesPush(f, front, last);
      FreePush(RewriteLines(f, front), out);
      LinesKeptStep(f, front, last, RewriteLines(f, front), out);
    }
  }

  /** Blank lines and tags without a URI attribute. */
  predicate LeftAlone(line: string) {
    Trim(line) == [] || (IsTag(Trim(line)) && !Contains(Trim(line), OPENER))
  }

  /** Rewriting keeps the number of lines, and a player that reads the rewritten
      playlist finds the original links, each rewritten, in their order. */
  lemma RewriteKeepsLinks(f: string -> string, playlist: string)
    requires Appends(f)
    ensures Split(Rewrite(f, playlist), '\n') == RewriteLines(f, Split(playlist, '\n'))
    ensures |Split(Rewrite(f, playlist), '\n')| == |Split(playlist, '\n')|
    ensures Links(Rewrite(f, playlist)) == Apply(f, Links(playlist))
  {
    var lines := Split(playlist, '\n');
    SplitFree(playlist, '\n');
    LinesKept(f, lines);
    SplitOfJoin(RewriteLines(f, lines), '\n');
  }

  /** Blank lines and tags without a URI attribute do not change. */
  lemma OtherLinesUnchanged(f: string -> string, playlist: string, i: nat)
    requires Appends(f) && i < |Split(playlist, '\n')| && LeftAlone(Split(playlist, '\n')[i])
    ensures |Split(Rewrite(f, playlist), '\n')| == |Split(playlist, '\n')|
    ensures Split(Rewrite(f, playlist), '\n')[i] == Split(playlist, '\n')[i]
  {
    RewriteKeepsLinks(f, playlist);
  }

  // ---- what a link is ----

  /** A line that is neither blank nor a tag is a link, and is rewritten whole. */
  lemma UriLine(f: string -> string, line: string)
    requires line != [] && !Blank(line[0]) && !Blank(line[|line| - 1]) && line[0] != '#'
    ensures LineLinks(line) == [line] && RewriteLine(f, line) == f(line)
  {
    TrimFixed(line);
  }

  lemma {:induction false} AttrAfter(f: string -> string, pre: string, s: string)
    requires Free(pre, 'U')
    ensures AttrUris(pre + s) == AttrUris(s) && RewriteAttrs(f, pre + s) == pre + RewriteAttrs(f, s)
    ensures Contains(s, "URI=\"") ==> Contains(pre + s, "URI=\"")
    decreases |pre|
  {
    if pre == [] {
      assert pre + s == s;
    } else {
      var first, rest, more := pre[0], pre[1..], pre[1..] + s;
      assert pre == [first] + rest && first in pre;
      AttrAfter(f, rest, s);
      Reassociate([first], rest, s);
      NoAttrAt(f, first, more, pre + s);
      Reassociate([first], rest, RewriteAttrs(f, s));
    }
  }

  lemma NoAttrAt(f: string -> string, first: char, more: string, s: string)
    requires first != 'U' && s == [first] + more
    ensures AttrUris(s) == AttrUris(more) && RewriteAttrs(f, s) == [first] + RewriteAttrs(f, more)
    ensures Contains(more, "URI=\"") ==> Contains(s, "URI=\"")
  {
    assert s[0] != OPENER[0] && s[1..] == more;
  }

  lemma OneAttr(f: string -> string, u: string, s: string)
    requires u != [] && Free(u, '"') && s == "URI=\"" + u + "\""
    ensures AttrUris(s) == [u] && RewriteAttrs(f, s) == "URI=\"" + f(u) + "\"" && Contains(s, "URI=\"")
  {
    var value := u + "\"";
    assert s == "URI=\"" + value && s[|OPENER|..] == value;
    assert value == u + ['"'] + [];
    HeadOf(u, '"', []);
    assert AttrHere(s) && ValueOf(s) == u && AfterAttr(s) == [];
    assert RewriteAttrs(f, s) == OPENER + f(u) + ['"'] + [];
  }

  /** A tag's URI attribute is a link, and its value alone is rewritten. */
  lemma UriTag(f: string -> string, pre: string, u: string)
    requires pre != [] && pre[0] == '#' && Free(pre, 'U') && u != [] && Free(u, '"')
    ensures LineLinks(pre + ("URI=\"" + u + "\"")) == [u]
    ensures RewriteLine(f, pre + ("URI=\"" + u + "\"")) == pre + ("URI=\"" + f(u) + "\"")
  {
    var s := "URI=\"" + u + "\"";
    TrimFixed(pre + s);
    OneAttr(f, u, s);
    AttrAfter(f, pre, s);
  }
}
