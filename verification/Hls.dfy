/** Serving HLS playlists: what the controller reads from a URL, what it writes into a
    playlist, and where a player's next request goes (section 5.2 of RFC 3986). */
module Hls {
  import opened Decimals
  import opened EdgeUrl
  import opened Options
  import opened Playlist
  import opened Sequences
  import opened Text

  const HLS := "/hls/"

  // ---- percent-encoding of query values ----

  /** `encodeURIComponent` and its inverse: the output has no delimiter and no blank. */
  datatype Codec = Codec(enc: string -> string, dec: string -> string)

  predicate Harmless(s: string) {
    Free(s, '\n') && Free(s, '"') && Free(s, '&') && Free(s, '=') && Free(s, '?') && Free(s, '#') && Free(s, '/')
  }

  predicate NoBlanks(s: string) {
    forall i :: 0 <= i < |s| ==> !Blank(s[i])
  }

  predicate GoodCode(c: Codec, s: string) {
    c.dec(c.enc(s)) == s && Harmless(c.enc(s)) && NoBlanks(c.enc(s)) && (s != [] ==> c.enc(s) != [])
  }

  ghost predicate Encodes(c: Codec) {
    forall s :: GoodCode(c, s)
  }

  // ---- writing links ----

  /** A request for one subpath, as the controller reads it. */
  datatype Visit = Visit(fileId: string, version: string, exp: string, sig: string, subpath: string)

  function Dir(subpath: string): string {
    Through(subpath, '/')
  }

  function ResolvedSubpath(current: string, target: string): string {
    var clean := Head(target, '?');
    if clean != [] && clean[0] == '/' then clean[1..] else Dir(current) + clean
  }

  function SignedQuery(c: Codec, version: string, exp: string, sig: string): string {
    "v=" + c.enc(version) + "&exp=" + c.enc(exp) + "&sig=" + c.enc(sig)
  }

  function RewriteUri(hmac: string -> string, c: Codec, at: Visit, target: string): string {
    var sig := SignSegment(hmac, at.fileId, at.version, ResolvedSubpath(at.subpath, target), at.exp);
    var sep := if Free(target, '?') then "?" else "&";
    target + sep + SignedQuery(c, at.version, at.exp, sig)
  }

  function Rewriter(hmac: string -> string, c: Codec, at: Visit): string -> string {
    target => RewriteUri(hmac, c, at, target)
  }

  function RewriteM3u8Playlist(hmac: string -> string, c: Codec, at: Visit, playlist: string): string {
    Rewrite(Rewriter(hmac, c, at), playlist)
  }

  predicate IsPlaylist(subpath: string) {
    EndsWith(subpath, ".m3u8")
  }

  /** What is sent: the stored text, and only under a playlist's name a rewritten one. */
  function Body(hmac: string -> string, c: Codec, at: Visit, raw: string): string {
    if IsPlaylist(at.subpath) then RewriteM3u8Playlist(hmac, c, at, raw) else raw
  }

  lemma QueryIsQuiet(hmac: string -> string, c: Codec, version: string, exp: string, sig: string)
    requires Encodes(c) && sig != []
    ensures var q := SignedQuery(c, version, exp, sig);
            q != [] && Free(q, '\n') && Free(q, '"') && Free(q, '?') && Free(q, '#') && !Blank(q[|q| - 1])
  {
    assert GoodCode(c, version) && GoodCode(c, exp) && GoodCode(c, sig);
  }

  lemma SuffixAppended(u: string, suffix: string, marked: string)
    requires marked == u + suffix && suffix != []
    requires Free(suffix, '\n') && Free(suffix, '"') && !Blank(suffix[|suffix| - 1])
    ensures Appended(u, marked)
  {
    assert marked[|u|..] == suffix;
  }

  lemma LinkAppended(hmac: string -> string, c: Codec, at: Visit, u: string)
    requires Encodes(c) && PrintsHex(hmac)
    ensures Appended(u, RewriteUri(hmac, c, at, u))
  {
    var sig := SignSegment(hmac, at.fileId, at.version, ResolvedSubpath(at.subpath, u), at.exp);
    var sep, query := if Free(u, '?') then "?" else "&", SignedQuery(c, at.version, at.exp, sig);
    QueryIsQuiet(hmac, c, at.version, at.exp, sig);
    Reassociate(u, sep, query);
    SuffixAppended(u, sep + query, RewriteUri(hmac, c, at, u));
  }

  lemma RewritingAppends(hmac: string -> string, c: Codec, at: Visit)
    requires Encodes(c) && PrintsHex(hmac)
    ensures Appends(Rewriter(hmac, c, at))
  {
    forall u
      ensures Appended(u, Rewriter(hmac, c, at)(u))
    {
      LinkAppended(hmac, c, at, u);
    }
  }

  // ---- following links ----

  predicate Dot(segment: string) {
    segment == "." || segment == ".."
  }

  function Pop(segments: seq<string>): seq<string> {
    if |segments| <= 1 then segments else segments[..|segments| - 1]
  }

  /** Dot segments removed, section 5.2.4 of RFC 3986; the last one leaves a slash. */
  function Clean(segments: seq<string>, last: bool): seq<string> {
    if segments == [] then []
    else
      var front, s := Clean(segments[..|segments| - 1], false), segments[|segments| - 1];
      var kept := if s == ".." then Pop(front) else if s == "." then front else front + [s];
      if last && Dot(s) then kept + [""] else kept
  }

  function RemoveDotSegments(path: string): string {
    var segments := Clean(Split(path, '/'), true);
    if segments == [] then [] else Join(segments, '/')
  }

  predicate Letter(c: char) {
    'a' <= c <= 'z' || 'A' <= c <= 'Z'
  }

  predicate SchemeChar(c: char) {
    Letter(c) || '0' <= c <= '9' || c == '+' || c == '-' || c == '.'
  }

  /** The reference begins with a scheme, section 3.1 of RFC 3986. */
  predicate HasScheme(reference: string) {
    var scheme := Head(reference, ':');
    scheme != reference && scheme != [] && Letter(scheme[0]) && forall i :: 0 <= i < |scheme| ==> SchemeChar(scheme[i])
  }

  /** The path and query a player requests from this site for a reference found at
      `basePath`; nothing if the reference names a scheme or a host of its own. */
  function Follow(basePath: string, reference: string): Option<string> {
    if HasScheme(reference) || StartsWith(reference, "//") then None
    else
      var path := Head(reference, '?');
      var query := reference[|path|..];
      var merged := if path != [] && path[0] == '/' then path else Through(basePath, '/') + path;
      Some(RemoveDotSegments(merged) + query)
  }

  // ---- reading requests ----

  /** `req.url.split('/hls/')[1]?.split('?')[0] || 'master.m3u8'` */
  function ReadSubpath(url: string): string {
    if !Contains(url, HLS) then "master.m3u8"
    else
      var raw := Head(SecondPiece(url, HLS), '?');
      if raw == [] then "master.m3u8" else raw
  }

  predicate Refused(subpath: string) {
    Contains(subpath, "..") || (subpath != [] && (subpath[0] == '/' || subpath[0] == '\\'))
  }

  function QueryParts(url: string): seq<string> {
    var path := Head(url, '?');
    if path == url then [] else Split(url[|path| + 1..], '&')
  }

  /** The first value given for a name, or nothing. */
  function Param(c: Codec, parts: seq<string>, name: string): string {
    if parts == [] then []
    else if StartsWith(parts[0], name + "=") then c.dec(parts[0][|name| + 1..])
    else Param(c, parts[1..], name)
  }

  function Read(c: Codec, fileId: string, url: string): Visit {
    var parts := QueryParts(url);
    var version := Param(c, parts, "v");
    Visit(fileId, if version == [] then "1" else version, Param(c, parts, "exp"), Param(c, parts, "sig"), ReadSubpath(url))
  }

  /** The controller serves a signed request. */
  predicate Serves(hmac: string -> string, at: Visit, now: int) {
    !Refused(at.subpath) && Verifies(hmac, at.fileId, at.version, at.exp, at.sig, at.subpath, now)
  }

  // ---- one link ----

  predicate Undotted(path: string) {
    forall i :: 0 <= i < |Split(path, '/')| ==> !Dot(Split(path, '/')[i])
  }

  /** A character that stays as it is in a URL's path: unreserved, a sub-delimiter, or
      one of `:@/`, section 3.3 of RFC 3986. */
  predicate PathChar(c: char) {
    || Letter(c) || '0' <= c <= '9'
    || c in {'-', '.', '_', '~', '!', '$', '&', '\'', '(', ')', '*', '+', ',', ';', '=', ':', '@', '/'}
  }

  predicate AllPathChars(s: string) {
    forall i :: 0 <= i < |s| ==> PathChar(s[i])
  }

  /** A subpath that survives in a URL: nothing in it is a delimiter to the player or
      to the controller, or would be encoded. */
  predicate Plain(subpath: string) {
    subpath != [] && !Refused(subpath) && !Contains(subpath, HLS) && AllPathChars(subpath) && Undotted(subpath)
  }

  /** A relative reference without a query, from a given playlist. */
  predicate PlainLink(current: string, u: string) {
    u != [] && u[0] != '/' && !HasScheme(u) && Plain(Dir(current) + u)
  }

  /** A parameter the controller does not look for. */
  predicate Silent(part: string) {
    !StartsWith(part, "v=") && !StartsWith(part, "exp=") && !StartsWith(part, "sig=")
  }

  predicate QuietQuery(own: string) {
    AllPathChars(own) && forall i :: 0 <= i < |Split(own, '&')| ==> Silent(Split(own, '&')[i])
  }

  /** The query a reference brings along, if it has one. */
  function OwnQuery(u: string): string {
    if Free(u, '?') then [] else u[|Head(u, '?')| + 1..]
  }

  /** The same with, perhaps, a query of its own. */
  predicate PlainRef(current: string, u: string) {
    PlainLink(current, Head(u, '?')) && (Free(u, '?') || QuietQuery(OwnQuery(u)))
  }

  /** Where a file's HLS tree is served. */
  function Base(fileId: string): string {
    "/edge/content/" + fileId
  }

  function PathOf(fileId: string, subpath: string): string {
    Base(fileId) + HLS + subpath
  }

  /** A file identifier that is one ordinary path segment. */
  predicate PlainId(fileId: string) {
    fileId != [] && Free(fileId, '/') && Free(fileId, '?') && fileId != "hls" && !Dot(fileId)
  }
}
