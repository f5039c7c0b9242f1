/** Every link a player finds in a served playlist is itself served: one signed master
    opens its whole tree until it expires. */
module HlsClosure {
  import opened Decimals
  import opened EdgeUrl
  import opened Hls
  import opened Options
  import opened Playlist
  import opened Sequences
  import opened Text

  // ---- the path ----

  lemma UndottedAppend(path: string, x: string, y: string)
    requires path == x + ['/'] + y && Undotted(x) && Undotted(y)
    ensures Undotted(path)
  {
    SplitAppend(path, x, '/', y);
  }

  lemma {:induction false} CleanUndotted(segments: seq<string>, last: bool)
    requires forall i :: 0 <= i < |segments| ==> !Dot(segments[i])
    ensures Clean(segments, last) == segments
  {
    if segments != [] {
      CleanUndotted(segments[..|segments| - 1], false);
    }
  }

  lemma UndottedStays(path: string)
    requires Undotted(path)
    ensures RemoveDotSegments(path) == path
  {
    CleanUndotted(Split(path, '/'), true);
    JoinOfSplit(path, '/');
  }

  lemma SegmentUndotted(s: string)
    requires Free(s, '/') && !Dot(s)
    ensures Undotted(s)
  {
  }

  lemma BaseUndotted(fileId: string)
    requires PlainId(fileId)
    ensures Undotted(Base(fileId))
  {
    SegmentUndotted("");
    SegmentUndotted("edge");
    SegmentUndotted("content");
    SegmentUndotted(fileId);
    UndottedAppend("/edge", "", "edge");
    UndottedAppend("/edge/content", "/edge", "content");
    UndottedAppend(Base(fileId), "/edge/content", fileId);
  }

  lemma PathUndotted(fileId: string, subpath: string)
    requires PlainId(fileId) && Undotted(subpath)
    ensures Undotted(PathOf(fileId, subpath))
  {
    BaseUndotted(fileId);
    SegmentUndotted("hls");
    var dir := Base(fileId) + "/hls";
    UndottedAppend(dir, Base(fileId), "hls");
    UndottedAppend(PathOf(fileId, subpath), dir, subpath);
  }

  /** A query gives a reference no scheme it did not have. */
  lemma NoSchemeAdded(u: string, query: string)
    requires !HasScheme(u)
    ensures !HasScheme(u + ['?'] + query)
  {
    var link := u + ['?'] + query;
    var scheme := Head(link, ':');
    if Free(u, ':') {
      var tail := ['?'] + query;
      assert link == u + tail;
      HeadPast(u, tail, ':');
      assert Head(tail, ':')[0] == '?';
      assert scheme[|u|] == '?';
    } else {
      var rest := u[|Head(u, ':')| + 1..];
      assert u == Head(u, ':') + [':'] + rest;
      assert link == Head(u, ':') + [':'] + (rest + ['?'] + query);
      HeadOf(Head(u, ':'), ':', rest + ['?'] + query);
    }
  }

  lemma PathCharsFree(s: string)
    requires AllPathChars(s)
    ensures Free(s, '?') && Free(s, '#')
  {
  }

  lemma LinkCharsFree(current: string, u: string)
    requires PlainLink(current, u)
    ensures Free(u, '?')
  {
    PathCharsFree(Dir(current) + u);
    assert forall i :: 0 <= i < |u| ==> (Dir(current) + u)[|Dir(current)| + i] == u[i];
  }

  /** The player asks for the link's own path, under the playlist's directory. */
  lemma FollowTo(fileId: string, current: string, u: string, tail: string, link: string)
    requires PlainId(fileId) && PlainLink(current, u)
    requires link == u + tail && Head(link, '?') == u && !HasScheme(link)
    ensures Follow(PathOf(fileId, current), link) == Some(PathOf(fileId, Dir(current) + u) + tail)
  {
    var root, q := Base(fileId) + HLS, Dir(current) + u;
    assert link[|u|..] == tail && link[0] == u[0];
    ThroughAppend(root, current, '/');
    Reassociate(root, Dir(current), u);
    PathUndotted(fileId, q);
    UndottedStays(PathOf(fileId, q));
  }

  lemma FollowPlain(fileId: string, current: string, u: string, query: string)
    requires PlainId(fileId) && PlainLink(current, u)
    ensures Follow(PathOf(fileId, current), u + ['?'] + query) == Some(PathOf(fileId, Dir(current) + u) + ['?'] + query)
  {
    LinkCharsFree(current, u);
    NoSchemeAdded(u, query);
    HeadOf(u, '?', query);
    Reassociate(u, ['?'], query);
    FollowTo(fileId, current, u, ['?'] + query, u + ['?'] + query);
    Reassociate(PathOf(fileId, Dir(current) + u), ['?'], query);
  }

  /** No occurrence begins in the first `n` characters. */
  predicate NoneBegins(t: string, n: nat, pattern: string)
    requires n <= |t|
  {
    forall i :: 0 <= i < n ==> !StartsWith(t[i..], pattern)
  }

  lemma NoneBeginsLater(t: string, n: nat, pattern: string, tail: string, m: nat)
    requires n <= |t| && NoneBegins(t, n, pattern) && n == m + 1 && tail == t[1..]
    ensures NoneBegins(tail, m, pattern) && !StartsWith(t, pattern)
  {
    assert t[0..] == t;
    forall i | 0 <= i < m
      ensures !StartsWith(tail[i..], pattern)
    {
      assert tail[i..] == t[i + 1..];
    }
  }

  lemma {:induction false} SkipTo(t: string, prefix: string, s: string, pattern: string)
    requires t == prefix + s && NoneBegins(t, |prefix|, pattern)
    ensures Before(t, pattern) == prefix + Before(s, pattern)
    ensures Contains(s, pattern) ==> Contains(t, pattern)
    decreases |prefix|
  {
    if prefix == [] {
      assert t == s;
    } else {
      var tail, rest := t[1..], prefix[1..];
      NoneBeginsLater(t, |prefix|, pattern, tail, |rest|);
      assert tail == rest + s && prefix == [t[0]] + rest;
      BeforeTail(t, pattern);
      SkipTo(tail, rest, s, pattern);
      Reassociate([t[0]], rest, Before(s, pattern));
    }
  }

  lemma OnlySlashStarts(s: string)
    ensures s != [] && s[0] != '/' ==> !StartsWith(s, HLS)
    ensures |s| > 1 && s[1] != 'h' ==> !StartsWith(s, HLS)
  {
  }

  /** The file's own segment is not taken for the marker. */
  lemma IdIsNoMarker(fileId: string, rest: string)
    requires PlainId(fileId)
    ensures !StartsWith(['/'] + fileId + HLS + rest, HLS)
  {
    var s := ['/'] + fileId + HLS + rest;
    var head := s[..5];
    if |fileId| >= 4 {
      assert head[4] == fileId[3] != '/';
    } else if |fileId| == 3 {
      assert head[1..4] == fileId != HLS[1..4];
    } else {
      assert head[|fileId| + 1] == '/' != HLS[|fileId| + 1];
    }
  }

  lemma BaseComesFirst(fileId: string, rest: string)
    requires PlainId(fileId)
    ensures Contains(Base(fileId) + HLS + rest, HLS)
    ensures Before(Base(fileId) + HLS + rest, HLS) == Base(fileId)
  {
    var base, s := Base(fileId), HLS + rest;
    assert base + HLS + rest == base + s;
    assert StartsWith(s, HLS);
    forall i | 0 <= i < |base|
      ensures !StartsWith((base + s)[i..], HLS)
    {
      var t := (base + s)[i..];
      assert t[0] == base[i];
      OnlySlashStarts(t);
      if i == 13 {
        assert t == ['/'] + fileId + HLS + rest;
        IdIsNoMarker(fileId, rest);
      } else if i == 0 || i == 5 {
        assert t[1] == base[i + 1];
      } else if i < 13 {
        assert base[i] == "/edge/content/"[i];
      } else {
        assert base[i] == fileId[i - 14];
      }
    }
    SkipTo(base + s, base, s, HLS);
    assert Before(s, HLS) == [];
  }

  lemma HeadOfLonger(s: string, head: string, c: char)
    requires head + [c] <= s && Free(head, c)
    ensures Head(s, c) == head
  {
    var rest := s[|head| + 1..];
    assert s == head + [c] + rest;
    HeadOf(head, c, rest);
  }

  lemma PieceAfterMarker(base: string, rest: string)
    requires Contains(base + HLS + rest, HLS) && Before(base + HLS + rest, HLS) == base
    ensures SecondPiece(base + HLS + rest, HLS) == Before(rest, HLS)
  {
    assert (base + HLS + rest)[|base| + |HLS|..] == rest;
  }

  /** The controller reads the subpath back. */
  lemma SubpathRead(fileId: string, subpath: string, query: string)
    requires PlainId(fileId) && Plain(subpath)
    ensures ReadSubpath(PathOf(fileId, subpath) + ['?'] + query) == subpath
  {
    var rest := subpath + ['?'] + query;
    PathCharsFree(subpath);
    assert PathOf(fileId, subpath) + ['?'] + query == Base(fileId) + HLS + rest;
    BaseComesFirst(fileId, rest);
    PieceAfterMarker(Base(fileId), rest);
    BeforeSkips(rest, subpath, '?', HLS);
    HeadOfLonger(Before(rest, HLS), subpath, '?');
    assert SecondPiece(PathOf(fileId, subpath) + ['?'] + query, HLS) == Before(rest, HLS);
  }

  // ---- the query ----

  function Parts(c: Codec, version: string, exp: string, sig: string): seq<string> {
    ["v=" + c.enc(version), "exp=" + c.enc(exp), "sig=" + c.enc(sig)]
  }

  lemma QuerySplits(c: Codec, version: string, exp: string, sig: string)
    requires Encodes(c)
    ensures Split(SignedQuery(c, version, exp, sig), '&') == Parts(c, version, exp, sig)
  {
    assert GoodCode(c, version) && GoodCode(c, exp) && GoodCode(c, sig);
    var parts := Parts(c, version, exp, sig);
    assert parts[1..][1..] == [parts[2]];
    assert Join(parts[1..], '&') == parts[1] + ['&'] + parts[2];
    assert Join(parts, '&') == parts[0] + ['&'] + (parts[1] + ['&'] + parts[2]);
    assert SignedQuery(c, version, exp, sig) == Join(parts, '&');
    assert AllFree(parts, '&');
    SplitOfJoin(parts, '&');
  }

  lemma ParamsRead(c: Codec, version: string, exp: string, sig: string)
    requires Encodes(c)
    ensures var parts := Parts(c, version, exp, sig);
            Param(c, parts, "v") == version && Param(c, parts, "exp") == exp && Param(c, parts, "sig") == sig
  {
    var parts := Parts(c, version, exp, sig);
    assert GoodCode(c, version) && GoodCode(c, exp) && GoodCode(c, sig);
    assert parts[1..][0] == parts[1] && parts[1..][1..] == [parts[2]];
    assert "v=" <= parts[0] && parts[0][2..] == c.enc(version);
    assert "exp=" <= parts[1] && parts[1][4..] == c.enc(exp);
    assert "sig=" <= parts[2] && parts[2][4..] == c.enc(sig);
    assert parts[0][0] == 'v' && parts[1][0] == 'e';
    assert Param(c, [parts[2]], "sig") == sig;
    assert Param(c, parts[1..], "sig") == sig;
  }

  lemma PathFree(fileId: string, subpath: string)
    requires PlainId(fileId) && Plain(subpath)
    ensures Free(PathOf(fileId, subpath), '?')
  {
    PathCharsFree(subpath);
  }

  /** A request for a signed link is read as what was signed. */
  lemma RequestRead(c: Codec, fileId: string, subpath: string, version: string, exp: string, sig: string)
    requires Encodes(c) && PlainId(fileId) && Plain(subpath) && version != []
    ensures Read(c, fileId, PathOf(fileId, subpath) + ['?'] + SignedQuery(c, version, exp, sig)) ==
            Visit(fileId, version, exp, sig, subpath)
  {
    var path, query := PathOf(fileId, subpath), SignedQuery(c, version, exp, sig);
    var url := path + ['?'] + query;
    SubpathRead(fileId, subpath, query);
    PathFree(fileId, subpath);
    HeadOf(path, '?', query);
    assert url[|path| + 1..] == query;
    QuerySplits(c, version, exp, sig);
    ParamsRead(c, version, exp, sig);
  }

  lemma {:induction false} ParamSkips(c: Codec, own: seq<string>, rest: seq<string>, name: string)
    requires forall i :: 0 <= i < |own| ==> !StartsWith(own[i], name + "=")
    ensures Param(c, own + rest, name) == Param(c, rest, name)
  {
    if own == [] {
      assert own + rest == rest;
    } else {
      assert (own + rest)[1..] == own[1..] + rest;
      ParamSkips(c, own[1..], rest, name);
    }
  }

  lemma QuietParams(c: Codec, own: string, rest: seq<string>)
    requires QuietQuery(own)
    ensures Param(c, Split(own, '&') + rest, "v") == Param(c, rest, "v")
    ensures Param(c, Split(own, '&') + rest, "exp") == Param(c, rest, "exp")
    ensures Param(c, Split(own, '&') + rest, "sig") == Param(c, rest, "sig")
  {
    var parts := Split(own, '&');
    assert "v" + "=" == "v=" && "exp" + "=" == "exp=" && "sig" + "=" == "sig=";
    forall i | 0 <= i < |parts|
      ensures !StartsWith(parts[i], "v=") && !StartsWith(parts[i], "exp=") && !StartsWith(parts[i], "sig=")
    {
      assert Silent(parts[i]);
    }
    ParamSkips(c, parts, rest, "v");
    ParamSkips(c, parts, rest, "exp");
    ParamSkips(c, parts, rest, "sig");
  }

  lemma PartsOf(url: string, path: string, query: string)
    requires url == path + ['?'] + query && Free(path, '?')
    ensures QueryParts(url) == Split(query, '&')
  {
    HeadOf(path, '?', query);
    assert url[|path| + 1..] == query;
  }

  /** Parameters of the link's own, before the signature, do not disturb it. */
  lemma RequestReadAfter(c: Codec, fileId: string, subpath: string, own: string, version: string, exp: string, sig: string)
    requires Encodes(c) && PlainId(fileId) && Plain(subpath) && version != [] && QuietQuery(own)
    ensures Read(c, fileId, PathOf(fileId, subpath) + ['?'] + (own + ['&'] + SignedQuery(c, version, exp, sig))) ==
            Visit(fileId, version, exp, sig, subpath)
  {
    var path, signed := PathOf(fileId, subpath), SignedQuery(c, version, exp, sig);
    var query := own + ['&'] + signed;
    SubpathRead(fileId, subpath, query);
    PathFree(fileId, subpath);
    PartsOf(path + ['?'] + query, path, query);
    SplitAppend(query, own, '&', signed);
    QuerySplits(c, version, exp, sig);
    QuietParams(c, own, Parts(c, version, exp, sig));
    ParamsRead(c, version, exp, sig);
  }

  // ---- one link ----

  /** The next request when the player follows a link of the served playlist, if it
      stays on this site. */
  function Next(c: Codec, at: Visit, link: string): Option<Visit> {
    match Follow(PathOf(at.fileId, at.subpath), link)
    case None => None
    case Some(url) => Some(Read(c, at.fileId, url))
  }

  /** The subpath a link stands for. */
  function Target(at: Visit, u: string): string {
    Dir(at.subpath) + Head(u, '?')
  }

  function Child(hmac: string -> string, at: Visit, u: string): Visit {
    Visit(at.fileId, at.version, at.exp, SignSegment(hmac, at.fileId, at.version, Target(at, u), at.exp), Target(at, u))
  }

  lemma RefParts(u: string)
    requires !Free(u, '?')
    ensures u == Head(u, '?') + ['?'] + OwnQuery(u)
  {
    var head := Head(u, '?');
    assert head <= u && u[|head|] == '?';
    CutAt(u, head, '?', u[|head| + 1..]);
  }

  lemma BareLinkLeads(hmac: string -> string, c: Codec, at: Visit, u: string)
    requires Encodes(c) && PlainId(at.fileId) && at.version != [] && PlainRef(at.subpath, u) && Free(u, '?')
    ensures Next(c, at, RewriteUri(hmac, c, at, u)) == Some(Child(hmac, at, u))
  {
    var q, sig := Target(at, u), Child(hmac, at, u).sig;
    var query := SignedQuery(c, at.version, at.exp, sig);
    assert RewriteUri(hmac, c, at, u) == u + ['?'] + query;
    FollowPlain(at.fileId, at.subpath, u, query);
    RequestRead(c, at.fileId, q, at.version, at.exp, sig);
  }

  lemma QueriedText(u: string, path: string, own: string, signed: string)
    requires u == path + ['?'] + own
    ensures u + "&" + signed == path + ['?'] + (own + ['&'] + signed)
  {
    Regroup(path, ['?'], own, ['&'] + signed);
  }

  lemma QueriedLinkLeads(hmac: string -> string, c: Codec, at: Visit, u: string)
    requires Encodes(c) && PlainId(at.fileId) && at.version != [] && PlainRef(at.subpath, u) && !Free(u, '?')
    ensures Next(c, at, RewriteUri(hmac, c, at, u)) == Some(Child(hmac, at, u))
  {
    var path, own, q, sig := Head(u, '?'), OwnQuery(u), Target(at, u), Child(hmac, at, u).sig;
    var signed := SignedQuery(c, at.version, at.exp, sig);
    RefParts(u);
    QueriedText(u, path, own, signed);
    FollowPlain(at.fileId, at.subpath, path, own + ['&'] + signed);
    RequestReadAfter(c, at.fileId, q, own, at.version, at.exp, sig);
  }

  /** Following a rewritten link asks for the child with the signature made for it. */
  lemma LinkLeadsToChild(hmac: string -> string, c: Codec, at: Visit, u: string)
    requires Encodes(c) && PlainId(at.fileId) && at.version != [] && PlainRef(at.subpath, u)
    ensures Next(c, at, RewriteUri(hmac, c, at, u)) == Some(Child(hmac, at, u))
  {
    if Free(u, '?') {
      BareLinkLeads(hmac, c, at, u);
    } else {
      QueriedLinkLeads(hmac, c, at, u);
    }
  }

  predicate Canonical(exp: string) {
    ParseInt(exp).Some? && DecimalInt(ParseInt(exp).value) == exp
  }

  lemma PrefixCancels(f: string, v: string, a: string, b: string)
    ensures Payload(f, v, a) == Payload(f, v, b) <==> a == b
  {
    var k := |f| + |v| + 2;
    assert Payload(f, v, a)[k..] == a && Payload(f, v, b)[k..] == b;
  }

  lemma SamePathOnly(f: string, v: string, p: string, exp: string, e: string)
    requires Free(e, ':')
    ensures SegmentPayload(f, v, p, exp) == SegmentPayload(f, v, p, e) <==> exp == e
    ensures SegmentPayload(f, v, p, exp) != Payload(f, v, e)
  {
    PrefixCancels(f, v, p + [':'] + exp, p + [':'] + e);
    PrefixCancels(f, v, p + [':'] + exp, e);
    ColonInside(p, exp);
    assert (p + [':'] + exp)[|p| + 1..] == exp && (p + [':'] + e)[|p| + 1..] == e;
  }

  /** What is signed for the child. */
  function ChildPayload(at: Visit, u: string): string {
    SegmentPayload(at.fileId, at.version, Target(at, u), at.exp)
  }

  /** The child's signature is for one of the payloads asked for exactly when the expiry
      text the parent came with is how its number is printed. */
  lemma ChildAsked(at: Visit, u: string, n: int)
    requires PlainRef(at.subpath, u)
    ensures ChildPayload(at, u) in Candidates(at.fileId, at.version, n, Target(at, u)) <==> DecimalInt(n) == at.exp
  {
    var q := Target(at, u);
    assert StripSlashes(q) == q;
    DecimalFree(n);
    SamePathOnly(at.fileId, at.version, q, at.exp, DecimalInt(n));
    InCandidates(ChildPayload(at, u), at.fileId, at.version, n, q);
  }

  /** The child is served exactly until the expiry, and if the expiry text the parent
      came with is canonical or the hash collides on what was signed. */
  lemma ChildServedIff(hmac: string -> string, at: Visit, u: string, now: int)
    requires PrintsHex(hmac) && PlainRef(at.subpath, u)
    ensures Serves(hmac, Child(hmac, at, u), now) <==>
              && ParseInt(at.exp).Some? && now <= ParseInt(at.exp).value
              && (Canonical(at.exp) ||
                  Collides(hmac, ChildPayload(at, u),
                           Candidates(at.fileId, at.version, ParseInt(at.exp).value, Target(at, u))))
  {
    assert StripSlashes(Target(at, u)) == Target(at, u);
    if ParseInt(at.exp).Some? {
      var n := ParseInt(at.exp).value;
      ChildAsked(at, u, n);
      SomeMatchIff(hmac, ChildPayload(at, u), Candidates(at.fileId, at.version, n, Target(at, u)));
    }
  }

  // ---- the tree ----

  /** Links occur under a playlist's name only, and are plain. */
  predicate PlainPlaylist(subpath: string, raw: string) {
    && (Links(raw) != [] ==> EndsWith(subpath, ".m3u8"))
    && forall i :: 0 <= i < |Links(raw)| ==> PlainRef(subpath, Links(raw)[i])
  }

  /** The raw texts by subpath. */
  ghost predicate PlainTree(text: string -> string) {
    forall p :: PlainPlaylist(p, text(p))
  }

  function ServedLinks(hmac: string -> string, c: Codec, text: string -> string, at: Visit): seq<string> {
    Links(Body(hmac, c, at, text(at.subpath)))
  }

  /** The chosen links, one after the other, are links of the playlists reached. */
  predicate CanWalk(hmac: string -> string, c: Codec, text: string -> string, at: Visit, choices: seq<nat>)
    decreases |choices|, 0
  {
    choices == [] ||
    (CanWalk(hmac, c, text, at, choices[..|choices| - 1]) &&
     var before := Walk(hmac, c, text, at, choices[..|choices| - 1]);
     before.Some? && choices[|choices| - 1] < |ServedLinks(hmac, c, text, before.value)|)
  }

  /** Where following them from `at` leads, if that is on this site. */
  function Walk(hmac: string -> string, c: Codec, text: string -> string, at: Visit, choices: seq<nat>): Option<Visit>
    requires CanWalk(hmac, c, text, at, choices)
    decreases |choices|, 1
  {
    if choices == [] then Some(at)
    else
      var before := Walk(hmac, c, text, at, choices[..|choices| - 1]).value;
      Next(c, before, ServedLinks(hmac, c, text, before)[choices[|choices| - 1]])
  }

  lemma RewrittenLink(hmac: string -> string, c: Codec, at: Visit, raw: string, i: nat)
    requires Encodes(c) && PrintsHex(hmac)
    ensures |Links(RewriteM3u8Playlist(hmac, c, at, raw))| == |Links(raw)|
    ensures i < |Links(raw)| ==> Links(RewriteM3u8Playlist(hmac, c, at, raw))[i] == RewriteUri(hmac, c, at, Links(raw)[i])
  {
    RewritingAppends(hmac, c, at);
    RewriteKeepsLinks(Rewriter(hmac, c, at), raw);
    assert Links(RewriteM3u8Playlist(hmac, c, at, raw)) == Apply(Rewriter(hmac, c, at), Links(raw));
  }

  /** The links of a served playlist are the raw ones, rewritten. */
  lemma ServedLink(hmac: string -> string, c: Codec, text: string -> string, at: Visit, i: nat)
    requires Encodes(c) && PrintsHex(hmac) && PlainPlaylist(at.subpath, text(at.subpath))
    requires i < |ServedLinks(hmac, c, text, at)|
    ensures i < |Links(text(at.subpath))|
    ensures ServedLinks(hmac, c, text, at)[i] == RewriteUri(hmac, c, at, Links(text(at.subpath))[i])
  {
    RewrittenLink(hmac, c, at, text(at.subpath), i);
  }

  lemma {:induction false} WalkStaysSigned(hmac: string -> string, c: Codec, text: string -> string, at: Visit,
                                           choices: seq<nat>, now: int)
    requires Encodes(c) && PrintsHex(hmac) && PlainTree(text)
    requires PlainId(at.fileId) && at.version != [] && Canonical(at.exp) && now <= ParseInt(at.exp).value
    requires Serves(hmac, at, now) && CanWalk(hmac, c, text, at, choices)
    ensures var end := Walk(hmac, c, text, at, choices);
            && end.Some? && Serves(hmac, end.value, now)
            && end.value.fileId == at.fileId && end.value.version == at.version && end.value.exp == at.exp
  {
    if choices != [] {
      var front, i := choices[..|choices| - 1], choices[|choices| - 1];
      WalkStaysSigned(hmac, c, text, at, front, now);
      var before := Walk(hmac, c, text, at, front).value;
      ServedLink(hmac, c, text, before, i);
      var u := Links(text(before.subpath))[i];
      LinkLeadsToChild(hmac, c, before, u);
      ChildServedIff(hmac, before, u, now);
    }
  }

  /** An unsigned plain link asks for its target without version, expiry or signature. */
  lemma FollowRaw(c: Codec, at: Visit, u: string)
    requires PlainId(at.fileId) && PlainRef(at.subpath, u)
    ensures Next(c, at, u) == Some(Visit(at.fileId, "1", "", "", Target(at, u)))
  {
    if Free(u, '?') {
      FollowBare(at.fileId, at.subpath, u);
      BareRead(c, at.fileId, Target(at, u));
    } else {
      RefParts(u);
      FollowPlain(at.fileId, at.subpath, Head(u, '?'), OwnQuery(u));
      QuietRead(c, at.fileId, Target(at, u), OwnQuery(u));
    }
  }

  lemma FollowBare(fileId: string, current: string, u: string)
    requires PlainId(fileId) && PlainLink(current, u)
    ensures Follow(PathOf(fileId, current), u) == Some(PathOf(fileId, Dir(current) + u))
  {
    LinkCharsFree(current, u);
    assert u + [] == u;
    FollowTo(fileId, current, u, [], u);
    assert PathOf(fileId, Dir(current) + u) + [] == PathOf(fileId, Dir(current) + u);
  }

  lemma BareRead(c: Codec, fileId: string, subpath: string)
    requires PlainId(fileId) && Plain(subpath)
    ensures Read(c, fileId, PathOf(fileId, subpath)) == Visit(fileId, "1", "", "", subpath)
  {
    PathFree(fileId, subpath);
    PathCharsFree(subpath);
    BaseComesFirst(fileId, subpath);
    PieceAfterMarker(Base(fileId), subpath);
  }

  lemma QuietRead(c: Codec, fileId: string, subpath: string, own: string)
    requires PlainId(fileId) && Plain(subpath) && QuietQuery(own)
    ensures Read(c, fileId, PathOf(fileId, subpath) + ['?'] + own) == Visit(fileId, "1", "", "", subpath)
  {
    var path := PathOf(fileId, subpath);
    SubpathRead(fileId, subpath, own);
    PathFree(fileId, subpath);
    PartsOf(path + ['?'] + own, path, own);
    QuietParams(c, own, []);
    assert Split(own, '&') + [] == Split(own, '&');
  }

  /** A playlist kept under any other name is sent as it is stored, and none of its
      links is served. */
  lemma RawLinkIsRefused(hmac: string -> string, c: Codec, text: string -> string, at: Visit, i: nat, now: int)
    requires PlainId(at.fileId) && !EndsWith(at.subpath, ".m3u8")
    requires i < |Links(text(at.subpath))| && PlainRef(at.subpath, Links(text(at.subpath))[i])
    ensures ServedLinks(hmac, c, text, at) == Links(text(at.subpath))
    ensures var next := Next(c, at, ServedLinks(hmac, c, text, at)[i]);
            next.Some? && !Serves(hmac, next.value, now)
  {
    FollowRaw(c, at, Links(text(at.subpath))[i]);
  }

  /** A master signed for the file opens every playlist and segment reachable from it by
      following links, until it expires. */
  lemma TreeIsOpen(hmac: string -> string, c: Codec, text: string -> string, fileId: string, version: string, exp: int,
                   master: string, choices: seq<nat>, now: int)
    requires Encodes(c) && PrintsHex(hmac) && PlainTree(text)
    requires PlainId(fileId) && version != [] && !Refused(master) && now <= exp
    requires CanWalk(hmac, c, text, Visit(fileId, version, DecimalInt(exp), Sign(hmac, fileId, version, exp), master), choices)
    ensures var at := Visit(fileId, version, DecimalInt(exp), Sign(hmac, fileId, version, exp), master);
            var end := Walk(hmac, c, text, at, choices);
            end.Some? && Serves(hmac, end.value, now)
  {
    var at := Visit(fileId, version, DecimalInt(exp), Sign(hmac, fileId, version, exp), master);
    ParseDecimal(exp);
    FileSignatureOpensAll(hmac, fileId, version, exp, master, now);
    WalkStaysSigned(hmac, c, text, at, choices, now);
  }

  /** A padded expiry still opens the master but, short of a collision of the hash, none
      of its links. */
  lemma PaddedExpiryClosesTree(hmac: string -> string, c: Codec, fileId: string, version: string, master: string,
                               u: string, now: int)
    requires Encodes(c) && PrintsHex(hmac) && PlainId(fileId) && version != []
    requires !Refused(master) && PlainRef(master, u) && now <= 100
    ensures var at := Visit(fileId, version, "0100", Sign(hmac, fileId, version, 100), master);
            var next := Next(c, at, RewriteUri(hmac, c, at, u));
            && Serves(hmac, at, now) && next.Some?
            && (Serves(hmac, next.value, now) <==>
                  Collides(hmac, ChildPayload(at, u), Candidates(fileId, version, 100, Target(at, u))))
  {
    var at := Visit(fileId, version, "0100", Sign(hmac, fileId, version, 100), master);
    PaddedParses();
    FileSignatureOpensAll(hmac, fileId, version, 100, master, now);
    ParseDecimal(100);
    LinkLeadsToChild(hmac, c, at, u);
    ChildServedIff(hmac, at, u, now);
  }

  lemma DigitsOnly(digits: string, n: nat)
    requires AllDigits(digits) && digits != [] && Value(digits) == n
    ensures ParseInt(digits) == Some(n)
  {
    assert IsDigit(digits[0]);
    ParsePositive(digits, n);
  }

  lemma PaddedValue()
    ensures AllDigits("0100") && Value("0100") == 100
  {
    assert "0100"[..3] == "010" && "010"[..2] == "01" && "01"[..1] == "0" && "0"[..0] == "";
    assert Value("0") == 0;
    assert Value("01") == 1;
    assert Value("010") == 10;
  }

  lemma ThreeDigits()
    ensures |Decimal(100)| == 3
  {
    assert |Decimal(1)| == 1;
    assert |Decimal(10)| == |Decimal(1)| + 1;
    assert |Decimal(100)| == |Decimal(10)| + 1;
  }

  lemma PaddedParses()
    ensures ParseInt("0100") == Some(100) && DecimalInt(100) != "0100"
  {
    PaddedValue();
    DigitsOnly("0100", 100);
    ThreeDigits();
  }
}
