/** Two kinds of link: a segment's name in a master, which plays, and a root-relative
    reference, which does not. */
module HlsLinks {
  import opened Decimals
  import opened EdgeUrl
  import opened Hls
  import opened HlsClosure
  import opened Options
  import opened Playlist
  import opened Sequences
  import opened Text

  // ---- a master with one segment ----

  /** A tag without attributes in quotes, like the one a playlist begins with. */
  predicate Header(line: string) {
    line != [] && line[0] == '#' && !Blank(line[|line| - 1]) && Free(line, '"') && Free(line, '\n')
  }

  lemma QuoteInOpener(s: string)
    ensures StartsWith(s, OPENER) ==> !Free(s, '"')
  {
    if StartsWith(s, OPENER) {
      assert s[..|OPENER|][4] == s[4];
    }
  }

  lemma {:induction false} NoQuoteNoOpener(s: string)
    requires Free(s, '"')
    ensures !Contains(s, OPENER)
  {
    QuoteInOpener(s);
    if s != [] {
      NoQuoteNoOpener(s[1..]);
    }
  }

  lemma HeaderHasNoLinks(line: string)
    requires Header(line)
    ensures LineLinks(line) == []
  {
    TrimFixed(line);
    NoQuoteNoOpener(line);
    NoOpenerNoUris(line);
  }

  lemma SegmentIsOneLine(segment: string)
    requires AllPathChars(segment) && segment != []
    ensures Free(segment, '\n') && segment[0] != '#' && !Blank(segment[0]) && !Blank(segment[|segment| - 1])
  {
  }

  lemma TwoLines(raw: string, first: string, second: string)
    requires raw == first + ['\n'] + second && Free(first, '\n') && Free(second, '\n')
    ensures Split(raw, '\n') == [first, second]
  {
    SplitAtFirst(raw, first, '\n', second);
    assert Head(second, '\n') == second;
  }

  lemma LinksOfOne(lines: seq<string>, line: string)
    requires lines == [line]
    ensures LinksOf(lines) == LineLinks(line)
  {
    assert lines[..0] == [];
    assert LinksOf([]) + LineLinks(line) == LineLinks(line);
  }

  lemma LinksOfTwo(lines: seq<string>, first: string, second: string)
    requires lines == [first, second]
    ensures LinksOf(lines) == LineLinks(first) + LineLinks(second)
  {
    LinksOfOne([first], first);
    LinksPush([first], second);
    assert [first] + [second] == lines;
  }

  lemma MasterLinks(header: string, segment: string)
    requires Header(header) && AllPathChars(segment) && segment != []
    ensures Links(header + ['\n'] + segment) == [segment]
  {
    SegmentIsOneLine(segment);
    TwoLines(header + ['\n'] + segment, header, segment);
    LinksOfTwo([header, segment], header, segment);
    HeaderHasNoLinks(header);
    UriLine(u => u, segment);
  }

  lemma NoDirectory(name: string)
    requires Free(name, '/')
    ensures Dir(name) == []
  {
    ThroughOccurs(name, '/');
  }

  /** The link is the segment's name with version, expiry and the signature made for it. */
  predicate Carries(hmac: string -> string, c: Codec, at: Visit, segment: string, link: string) {
    link == segment + ("?v=" + c.enc(at.version) + "&exp=" + c.enc(at.exp) + "&sig=" +
                       c.enc(SignSegment(hmac, at.fileId, at.version, segment, at.exp)))
  }

  /** What a link of the playlist at `name` is rewritten to. */
  lemma LinkText(hmac: string -> string, c: Codec, at: Visit, segment: string, link: string)
    requires Free(at.subpath, '/') && Free(segment, '?') && (segment == [] || segment[0] != '/')
    requires Carries(hmac, c, at, segment, link)
    ensures RewriteUri(hmac, c, at, segment) == link
  {
    NoDirectory(at.subpath);
    assert Head(segment, '?') == segment && Dir(at.subpath) + segment == segment;
    var sig := SignSegment(hmac, at.fileId, at.version, segment, at.exp);
    assert "?v=" + c.enc(at.version) + "&exp=" + c.enc(at.exp) + "&sig=" + c.enc(sig)
           == "?" + SignedQuery(c, at.version, at.exp, sig);
    Reassociate(segment, "?", SignedQuery(c, at.version, at.exp, sig));
  }

  lemma RewrittenMaster(hmac: string -> string, c: Codec, text: string -> string, at: Visit, header: string, segment: string)
    requires Encodes(c) && PrintsHex(hmac) && EndsWith(at.subpath, ".m3u8")
    requires Header(header) && text(at.subpath) == header + ['\n'] + segment && AllPathChars(segment) && segment != []
    ensures ServedLinks(hmac, c, text, at) == [RewriteUri(hmac, c, at, segment)]
  {
    var raw := header + ['\n'] + segment;
    MasterLinks(header, segment);
    OneLinkRewritten(hmac, c, at, raw, segment);
  }

  lemma OneLinkRewritten(hmac: string -> string, c: Codec, at: Visit, raw: string, segment: string)
    requires Encodes(c) && PrintsHex(hmac) && Links(raw) == [segment]
    ensures Links(RewriteM3u8Playlist(hmac, c, at, raw)) == [RewriteUri(hmac, c, at, segment)]
  {
    RewrittenLink(hmac, c, at, raw, 0);
    TheOnlyOne(Links(RewriteM3u8Playlist(hmac, c, at, raw)), RewriteUri(hmac, c, at, segment));
  }

  lemma TheOnlyOne(links: seq<string>, link: string)
    requires |links| == 1 && links[0] == link
    ensures links == [link]
  {
  }

  /** `master.m3u8` with a header and one segment: what is sent names the segment with
      version, expiry and signature, and the player's request for it is served until the
      expiry. */
  lemma MasterPlays(hmac: string -> string, c: Codec, text: string -> string, at: Visit, exp: int, header: string,
                    segment: string, link: string, now: int)
    requires Encodes(c) && PrintsHex(hmac) && PlainId(at.fileId) && at.version != [] && at.exp == DecimalInt(exp)
    requires at.subpath == "master.m3u8" && Header(header) && text("master.m3u8") == header + ['\n'] + segment
    requires PlainLink("master.m3u8", segment) && now <= exp
    requires Carries(hmac, c, at, segment, link)
    ensures ServedLinks(hmac, c, text, at) == [link]
    ensures var next := Next(c, at, link);
            next.Some? && next.value.subpath == segment && Serves(hmac, next.value, now)
  {
    MasterName("master.m3u8");
    PlaysAs(hmac, c, text, at, "master.m3u8", exp, header, segment, link, now);
  }

  lemma MasterName(name: string)
    requires name == "master.m3u8"
    ensures EndsWith(name, ".m3u8") && Free(name, '/')
  {
    assert name == "master" + ".m3u8";
  }

  lemma PlaysAs(hmac: string -> string, c: Codec, text: string -> string, at: Visit, name: string, exp: int, header: string,
                segment: string, link: string, now: int)
    requires Encodes(c) && PrintsHex(hmac) && PlainId(at.fileId) && at.version != [] && at.exp == DecimalInt(exp)
    requires at.subpath == name && EndsWith(name, ".m3u8") && Free(name, '/')
    requires Header(header) && text(name) == header + ['\n'] + segment
    requires PlainLink(name, segment) && now <= exp
    requires Carries(hmac, c, at, segment, link)
    ensures ServedLinks(hmac, c, text, at) == [link]
    ensures var next := Next(c, at, link);
            next.Some? && next.value.subpath == segment && Serves(hmac, next.value, now)
  {
    NoDirectory(name);
    assert Dir(name) + segment == segment;
    LinkCharsFree(name, segment);
    assert Head(segment, '?') == segment;
    RewrittenMaster(hmac, c, text, at, header, segment);
    LinkText(hmac, c, at, segment, link);
    LinkLeadsToChild(hmac, c, at, segment);
    ParseDecimal(exp);
    ChildServedIff(hmac, at, segment, now);
  }

  // ---- root-relative links ----

  /** A root-relative link, even one that spells out where the tree is served, is signed for
      its whole path and asked for by its subpath: short of a collision it is refused. */
  lemma RootLinkServedIff(hmac: string -> string, c: Codec, at: Visit, u: string, q: string, now: int)
    requires Encodes(c) && PrintsHex(hmac) && PlainId(at.fileId) && at.version != []
    requires Plain(q) && u == PathOf(at.fileId, q)
    ensures var next := Next(c, at, RewriteUri(hmac, c, at, u));
            && next.Some? && next.value.subpath == q
            && (Serves(hmac, next.value, now) <==>
                  && ParseInt(at.exp).Some? && now <= ParseInt(at.exp).value
                  && Collides(hmac, SegmentPayload(at.fileId, at.version, u[1..], at.exp),
                              Candidates(at.fileId, at.version, ParseInt(at.exp).value, q)))
  {
    var path, sig := u[1..], SignSegment(hmac, at.fileId, at.version, u[1..], at.exp);
    RootLinkLeads(hmac, c, at, u, q, sig);
    RootedPath(at.fileId, q, path);
    if ParseInt(at.exp).Some? {
      var n := ParseInt(at.exp).value;
      OtherPathAsked(at, path, q, n);
      SomeMatchIff(hmac, SegmentPayload(at.fileId, at.version, path, at.exp), Candidates(at.fileId, at.version, n, q));
    }
  }

  lemma RootedPath(fileId: string, q: string, path: string)
    requires path == PathOf(fileId, q)[1..]
    ensures StripSlashes(path) == path && |path| > |q|
  {
    assert path[0] == 'e';
  }

  lemma RootLinkLeads(hmac: string -> string, c: Codec, at: Visit, u: string, q: string, sig: string)
    requires Encodes(c) && PlainId(at.fileId) && at.version != [] && Plain(q) && u == PathOf(at.fileId, q)
    requires sig == SignSegment(hmac, at.fileId, at.version, u[1..], at.exp)
    ensures Next(c, at, RewriteUri(hmac, c, at, u)) == Some(Visit(at.fileId, at.version, at.exp, sig, q))
  {
    var query := SignedQuery(c, at.version, at.exp, sig);
    PathFree(at.fileId, q);
    RewrittenRooted(hmac, c, at, u, sig);
    FollowRooted(PathOf(at.fileId, at.subpath), at.fileId, q, u, query, u + ['?'] + query);
    RequestRead(c, at.fileId, q, at.version, at.exp, sig);
  }

  lemma RewrittenRooted(hmac: string -> string, c: Codec, at: Visit, u: string, sig: string)
    requires u != [] && u[0] == '/' && Free(u, '?')
    requires sig == SignSegment(hmac, at.fileId, at.version, u[1..], at.exp)
    ensures RewriteUri(hmac, c, at, u) == u + ['?'] + SignedQuery(c, at.version, at.exp, sig)
  {
    assert Head(u, '?') == u;
  }

  lemma RootedHasNoScheme(link: string)
    requires link != [] && link[0] == '/'
    ensures !HasScheme(link)
  {
  }

  lemma OneSlash(link: string)
    requires |link| > 1 && link[1] != '/'
    ensures !StartsWith(link, "//")
  {
    assert link[..2][1] == link[1];
  }

  lemma FollowPath(base: string, u: string, query: string, link: string)
    requires u != [] && u[0] == '/' && Free(u, '?') && Undotted(u) && link == u + ['?'] + query
    requires !HasScheme(link) && !StartsWith(link, "//")
    ensures Follow(base, link) == Some(link)
  {
    HeadOf(u, '?', query);
    assert link[|u|..] == ['?'] + query;
    UndottedStays(u);
    Reassociate(u, ['?'], query);
  }

  lemma FollowRooted(base: string, fileId: string, q: string, u: string, query: string, link: string)
    requires PlainId(fileId) && Plain(q) && u == PathOf(fileId, q) && link == u + ['?'] + query
    ensures Follow(base, link) == Some(link)
  {
    assert u[0] == '/' && u[1] == 'e';
    RootedHasNoScheme(link);
    OneSlash(link);
    PathFree(fileId, q);
    PathUndotted(fileId, q);
    FollowPath(base, u, query, link);
  }

  /** A longer path signed is no payload asked for. */
  lemma OtherPathAsked(at: Visit, path: string, q: string, n: int)
    requires |path| > |q| && q != [] && StripSlashes(q) == q
    ensures SegmentPayload(at.fileId, at.version, path, at.exp) !in Candidates(at.fileId, at.version, n, q)
  {
    var e, made := DecimalInt(n), SegmentPayload(at.fileId, at.version, path, at.exp);
    DecimalFree(n);
    InCandidates(made, at.fileId, at.version, n, q);
    SamePathOnly(at.fileId, at.version, path, at.exp, e);
    PrefixCancels(at.fileId, at.version, path + [':'] + at.exp, q + [':'] + e);
    if path + [':'] + at.exp == q + [':'] + e {
      ColonInTail(q, e, path, at.exp);
    }
  }

  // ---- requests as they come ----

  /** A request for the tree itself, without parameters, is one for the first version's
      `master.m3u8`, unsigned. */
  lemma BareRequest(c: Codec, fileId: string)
    requires PlainId(fileId)
    ensures Read(c, fileId, PathOf(fileId, "")) == Visit(fileId, "1", "", "", "master.m3u8")
  {
    var url := PathOf(fileId, "");
    BaseComesFirst(fileId, "");
    PieceAfterMarker(Base(fileId), "");
    NoQuery(fileId);
    assert QueryParts(url) == [];
  }

  lemma NoQuery(fileId: string)
    requires PlainId(fileId)
    ensures Head(PathOf(fileId, ""), '?') == PathOf(fileId, "")
  {
    assert Free(Base(fileId), '?') && Free(HLS, '?');
  }

  lemma {:induction false} ContainsIn(a: string, pattern: string, b: string)
    ensures Contains(a + pattern + b, pattern)
    decreases |a|
  {
    var s := a + pattern + b;
    if a == [] {
      assert s[..|pattern|] == pattern;
    } else {
      ContainsIn(a[1..], pattern, b);
      assert s[1..] == a[1..] + pattern + b;
    }
  }

  /** A subpath that climbs, or begins at a root, is refused whatever its signature. */
  lemma TraversalIsRefused(hmac: string -> string, at: Visit, a: string, b: string, now: int)
    requires at.subpath == a + ".." + b || (at.subpath != [] && (at.subpath[0] == '/' || at.subpath[0] == '\\'))
    ensures !Serves(hmac, at, now)
  {
    if at.subpath == a + ".." + b {
      ContainsIn(a, "..", b);
    }
  }
}
