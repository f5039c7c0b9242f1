/** Signing and verifying edge URLs. The keyed hash for the configured secret is a
    parameter that prints lower-case hexadecimal. */
module EdgeUrl {
  import opened Decimals
  import opened Options
  import opened Text

  // ---- payloads ----

  /** `<fileId>:<version>:<exp>` */
  function Payload(fileId: string, version: string, exp: string): string {
    fileId + [':'] + version + [':'] + exp
  }

  /** `<fileId>:<version>:<subpath>:<exp>` */
  function SegmentPayload(fileId: string, version: string, subpath: string, exp: string): string {
    Payload(fileId, version, subpath + [':'] + exp)
  }

  /** `subpath.replace(/^\/+/, '')` */
  function StripSlashes(s: string): (r: string)
    ensures r == [] || r[0] != '/'
    ensures s == [] || s[0] != '/' ==> r == s
  {
    if s != [] && s[0] == '/' then StripSlashes(s[1..]) else s
  }

  lemma PairInjective(a: string, x: string, b: string, y: string)
    requires Free(a, ':') && Free(b, ':')
    requires a + [':'] + x == b + [':'] + y
    ensures a == b && x == y
  {
    HeadOf(a, ':', x);
    HeadOf(b, ':', y);
    assert (a + [':'] + x)[|a| + 1..] == x;
    assert (b + [':'] + y)[|b| + 1..] == y;
  }

  lemma PayloadInjective(f: string, v: string, rest: string, g: string, w: string, other: string)
    requires Free(f, ':') && Free(v, ':') && Free(g, ':') && Free(w, ':')
    requires Payload(f, v, rest) == Payload(g, w, other)
    ensures f == g && v == w && rest == other
  {
    assert Payload(f, v, rest) == f + [':'] + (v + [':'] + rest);
    assert Payload(g, w, other) == g + [':'] + (w + [':'] + other);
    PairInjective(f, v + [':'] + rest, g, w + [':'] + other);
    PairInjective(v, rest, w, other);
  }

  lemma ColonInside(p: string, e: string)
    ensures !Free(p + [':'] + e, ':')
  {
    assert (p + [':'] + e)[|p|] == ':';
  }

  /** For colon-free identifiers, versions and expiries the payload determines the
      kind of URL, the file, the version, the subpath and the expiry. */
  lemma PayloadsInjective(f: string, v: string, p: string, e: string, g: string, w: string, q: string, d: string)
    requires Free(f, ':') && Free(v, ':') && Free(e, ':') && Free(g, ':') && Free(w, ':') && Free(d, ':')
    ensures Payload(f, v, e) == Payload(g, w, d) ==> f == g && v == w && e == d
    ensures SegmentPayload(f, v, p, e) == SegmentPayload(g, w, q, d) ==> f == g && v == w && p == q && e == d
    ensures SegmentPayload(f, v, p, e) != Payload(g, w, d)
  {
    if Payload(f, v, e) == Payload(g, w, d) {
      PayloadInjective(f, v, e, g, w, d);
    }
    if SegmentPayload(f, v, p, e) == SegmentPayload(g, w, q, d) {
      PayloadInjective(f, v, p + [':'] + e, g, w, q + [':'] + d);
      TailInjective(p, e, q, d);
    }
    if SegmentPayload(f, v, p, e) == Payload(g, w, d) {
      PayloadInjective(f, v, p + [':'] + e, g, w, d);
      ColonInside(p, e);
    }
  }

  // ---- signatures ----

  function Nibble(c: char): nat
    requires HexDigit(LowerChar(c))
  {
    var l := LowerChar(c);
    if l <= '9' then l as int - '0' as int else l as int - 'a' as int + 10
  }

  /** `Buffer.from(s, 'hex')`: pairs of digits up to the first that is none. */
  function FromHex(s: string): (r: seq<nat>)
    ensures 2 * |r| <= |s|
  {
    if |s| < 2 || !HexDigit(LowerChar(s[0])) || !HexDigit(LowerChar(s[1])) then []
    else [16 * Nibble(s[0]) + Nibble(s[1])] + FromHex(s[2..])
  }

  predicate LowerHex(s: string) {
    s != [] && |s| % 2 == 0 && forall i :: 0 <= i < |s| ==> HexDigit(s[i])
  }

  ghost predicate PrintsHex(hmac: string -> string) {
    forall p :: LowerHex(hmac(p))
  }

  function Sign(hmac: string -> string, fileId: string, version: string, exp: int): string {
    hmac(Payload(fileId, version, DecimalInt(exp)))
  }

  /** The expiry is signed as the text it came in. */
  function SignSegment(hmac: string -> string, fileId: string, version: string, subpath: string, exp: string): string {
    hmac(SegmentPayload(fileId, version, StripSlashes(subpath), exp))
  }

  predicate Matches(sig: string, expected: string) {
    |sig| == |expected| && FromHex(sig) != [] && FromHex(sig) == FromHex(expected)
  }

  function Candidates(fileId: string, version: string, exp: int, subpath: string): seq<string> {
    var e := DecimalInt(exp);
    var clean := StripSlashes(subpath);
    if subpath == [] then [Payload(fileId, version, e)]
    else if clean == subpath then [Payload(fileId, version, e), SegmentPayload(fileId, version, clean, e)]
    else [Payload(fileId, version, e), SegmentPayload(fileId, version, clean, e), SegmentPayload(fileId, version, subpath, e)]
  }

  predicate SomeMatch(hmac: string -> string, sig: string, payloads: seq<string>) {
    exists i :: 0 <= i < |payloads| && Matches(sig, hmac(payloads[i]))
  }

  /** What a request must satisfy; an absent subpath is empty. */
  predicate Verifies(hmac: string -> string, fileId: string, version: string, exp: string, sig: string, subpath: string, now: int) {
    && ParseInt(exp).Some? && now <= ParseInt(exp).value
    && SomeMatch(hmac, sig, Candidates(fileId, version, ParseInt(exp).value, subpath))
  }

  method VerifyEdgeUrl(hmac: string -> string, fileId: string, version: string, expStr: string, sig: string,
                       subpath: string, now: int)
    returns (ok: bool)
    ensures ok <==> Verifies(hmac, fileId, version, expStr, sig, subpath, now)
  {
    if expStr == [] || sig == [] {
      return false;
    }
    var parsed := ParseInt(expStr);
    if parsed.None? {
      return false;
    }
    var exp := parsed.value;
    if now > exp {
      return false;
    }
    var candidatePayloads := CandidatePayloads(fileId, version, exp, subpath);
    ok := MatchesAny(hmac, sig, candidatePayloads);
  }

  method CandidatePayloads(fileId: string, version: string, exp: int, subpath: string)
    returns (candidatePayloads: seq<string>)
    ensures candidatePayloads == Candidates(fileId, version, exp, subpath)
  {
    var e := DecimalInt(exp);
    candidatePayloads := [Payload(fileId, version, e)];
    if subpath != [] {
      var cleanSubpath := StripSlashes(subpath);
      candidatePayloads := candidatePayloads + [SegmentPayload(fileId, version, cleanSubpath, e)];
      if subpath != cleanSubpath {
        candidatePayloads := candidatePayloads + [SegmentPayload(fileId, version, subpath, e)];
      }
    }
  }

  method MatchesAny(hmac: string -> string, sig: string, payloads: seq<string>) returns (ok: bool)
    ensures ok <==> SomeMatch(hmac, sig, payloads)
  {
    var sigBuffer := FromHex(sig);
    if sigBuffer == [] {
      return false;
    }
    var i := 0;
    while i < |payloads|
      invariant 0 <= i <= |payloads|
      invariant forall j :: 0 <= j < i ==> !Matches(sig, hmac(payloads[j]))
    {
      var expectedSig := hmac(payloads[i]);
      if |sig| == |expectedSig| && sigBuffer == FromHex(expectedSig) {
        assert Matches(sig, hmac(payloads[i]));
        return true;
      }
      i := i + 1;
    }
    ok := false;
  }

  lemma NibblesDetermine(a: char, b: char, c: char, d: char)
    requires HexDigit(c) && HexDigit(d) && HexDigit(LowerChar(a)) && HexDigit(LowerChar(b))
    ensures 16 * Nibble(a) + Nibble(b) == 16 * Nibble(c) + Nibble(d) <==> LowerChar(a) == c && LowerChar(b) == d
  {
    assert Nibble(a) < 16 && Nibble(b) < 16 && Nibble(c) < 16 && Nibble(d) < 16;
  }

  lemma ConsEqual<T>(x: T, s: seq<T>, y: T, t: seq<T>)
    ensures [x] + s == [y] + t <==> x == y && s == t
  {
    assert ([x] + s)[0] == x && ([x] + s)[1..] == s;
    assert ([y] + t)[0] == y && ([y] + t)[1..] == t;
  }

  lemma LowerPairs(s: string, t: string)
    requires |s| == |t| >= 2
    ensures Lower(s) == t <==> LowerChar(s[0]) == t[0] && LowerChar(s[1]) == t[1] && Lower(s[2..]) == t[2..]
  {
    assert Lower(s) == [LowerChar(s[0]), LowerChar(s[1])] + Lower(s[2..]);
    assert t == [t[0], t[1]] + t[2..];
  }

  lemma {:induction false} HexPairs(sig: string, expected: string)
    requires |sig| == |expected| && |expected| % 2 == 0
    requires forall i :: 0 <= i < |expected| ==> HexDigit(expected[i])
    ensures FromHex(sig) == FromHex(expected) <==> Lower(sig) == expected
  {
    if expected != [] {
      var a, b, c, d := sig[0], sig[1], expected[0], expected[1];
      HexPairs(sig[2..], expected[2..]);
      LowerPairs(sig, expected);
      assert HexDigit(c) && HexDigit(d);
      if HexDigit(LowerChar(a)) && HexDigit(LowerChar(b)) {
        NibblesDetermine(a, b, c, d);
        ConsEqual(16 * Nibble(a) + Nibble(b), FromHex(sig[2..]), 16 * Nibble(c) + Nibble(d), FromHex(expected[2..]));
      }
    }
  }

  /** A signature matches exactly when it spells the expected one, in either case. */
  lemma MatchesIff(sig: string, expected: string)
    requires LowerHex(expected)
    ensures Matches(sig, expected) <==> Lower(sig) == expected
  {
    if |sig| == |expected| {
      HexPairs(sig, expected);
      assert HexDigit(expected[0]) && HexDigit(expected[1]);
    }
  }

  lemma {:induction false} LowerOfHex(s: string)
    requires LowerHex(s)
    ensures Lower(s) == s
  {
    assert forall i :: 0 <= i < |s| ==> HexDigit(s[i]) && LowerChar(s[i]) == s[i];
  }

  /** A signature made for one payload matches another exactly when the hash agrees. */
  lemma OwnMatch(hmac: string -> string, made: string, asked: string)
    requires PrintsHex(hmac)
    ensures Matches(hmac(made), hmac(asked)) <==> hmac(made) == hmac(asked)
  {
    LowerOfHex(hmac(made));
    MatchesIff(hmac(made), hmac(asked));
  }

  /** One of the payloads is another text with the same hash. */
  ghost predicate Collides(hmac: string -> string, made: string, payloads: seq<string>) {
    exists i :: 0 <= i < |payloads| && payloads[i] != made && hmac(payloads[i]) == hmac(made)
  }

  lemma SomeMatchIff(hmac: string -> string, made: string, payloads: seq<string>)
    requires PrintsHex(hmac)
    ensures SomeMatch(hmac, hmac(made), payloads) <==> made in payloads || Collides(hmac, made, payloads)
  {
    forall i | 0 <= i < |payloads|
      ensures Matches(hmac(made), hmac(payloads[i])) <==> hmac(made) == hmac(payloads[i])
    {
      OwnMatch(hmac, made, payloads[i]);
    }
  }

  /** What is signed, as the core and every edge have to agree on it. */
  lemma SignedTexts(hmac: string -> string, fileId: string, version: string, exp: int, subpath: string, expText: string)
    ensures Sign(hmac, fileId, version, exp) == hmac(fileId + ":" + version + ":" + DecimalInt(exp))
    ensures SignSegment(hmac, fileId, version, subpath, expText) ==
            hmac(fileId + ":" + version + ":" + (StripSlashes(subpath) + ":" + expText))
  {
  }

  // ---- scope ----

  /** A file's signature opens the file and everything under it until it expires. */
  lemma FileSignatureOpensAll(hmac: string -> string, fileId: string, version: string, exp: int, subpath: string, now: int)
    requires PrintsHex(hmac)
    ensures Verifies(hmac, fileId, version, DecimalInt(exp), Sign(hmac, fileId, version, exp), subpath, now) <==> now <= exp
  {
    ParseDecimal(exp);
    var payloads := Candidates(fileId, version, exp, subpath);
    OwnMatch(hmac, payloads[0], payloads[0]);
  }

  lemma DecimalFree(n: int)
    ensures Free(DecimalInt(n), ':')
  {
    if n < 0 {
      DecimalDigits(-n);
    } else {
      DecimalDigits(n);
    }
    var s := DecimalInt(n);
    assert forall i :: 0 <= i < |s| ==> s[i] == '-' || IsDigit(s[i]);
  }

  lemma InCandidates(x: string, g: string, w: string, n: int, q: string)
    ensures var e := DecimalInt(n);
            x in Candidates(g, w, n, q) <==>
              || x == Payload(g, w, e)
              || (q != [] && (x == SegmentPayload(g, w, StripSlashes(q), e) || x == SegmentPayload(g, w, q, e)))
  {
    var e, payloads := DecimalInt(n), Candidates(g, w, n, q);
    assert payloads[0] == Payload(g, w, e);
    if q != [] {
      assert payloads[1] == SegmentPayload(g, w, StripSlashes(q), e);
      assert q == StripSlashes(q) || payloads[2] == SegmentPayload(g, w, q, e);
    }
  }

  /** A subpath's payload is asked for exactly by requests for its file, version,
      subpath (up to leading slashes) and expiry as printed. */
  lemma SegmentAsked(f: string, v: string, p: string, exp: string, g: string, w: string, q: string, n: int)
    requires Free(f, ':') && Free(v, ':') && Free(g, ':') && Free(w, ':') && Free(exp, ':')
    ensures SegmentPayload(f, v, StripSlashes(p), exp) in Candidates(g, w, n, q) <==>
              f == g && v == w && q != [] && StripSlashes(q) == StripSlashes(p) && DecimalInt(n) == exp
  {
    DecimalFree(n);
    InCandidates(SegmentPayload(f, v, StripSlashes(p), exp), g, w, n, q);
    PayloadsInjective(f, v, StripSlashes(p), exp, g, w, StripSlashes(q), DecimalInt(n));
    PayloadsInjective(f, v, StripSlashes(p), exp, g, w, q, DecimalInt(n));
  }

  /** The signature of one subpath, made for expiry text `exp`, is accepted exactly while
      the number asked for has not passed, and for that file, version and subpath (up to
      leading slashes) with `exp` as that number is printed, or on a collision of the
      hash between the payload signed and one asked for. */
  lemma SegmentScope(hmac: string -> string, f: string, v: string, p: string, exp: string,
                     g: string, w: string, q: string, asked: string, now: int)
    requires PrintsHex(hmac)
    requires Free(f, ':') && Free(v, ':') && Free(g, ':') && Free(w, ':') && Free(exp, ':')
    ensures Verifies(hmac, g, w, asked, SignSegment(hmac, f, v, p, exp), q, now) <==>
              && ParseInt(asked).Some? && now <= ParseInt(asked).value
              && var n := ParseInt(asked).value;
                 || (f == g && v == w && q != [] && StripSlashes(q) == StripSlashes(p) && DecimalInt(n) == exp)
                 || Collides(hmac, SegmentPayload(f, v, StripSlashes(p), exp), Candidates(g, w, n, q))
  {
    if ParseInt(asked).Some? {
      var n := ParseInt(asked).value;
      SegmentAsked(f, v, p, exp, g, w, q, n);
      SomeMatchIff(hmac, SegmentPayload(f, v, StripSlashes(p), exp), Candidates(g, w, n, q));
    }
  }
}
