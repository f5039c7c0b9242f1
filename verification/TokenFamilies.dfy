/** Refresh-token families: login registers a token, each refresh consumes one and
    registers its successor, and presenting a consumed token revokes the family.
    Redis keys carry expiry times in milliseconds; each request is one atomic step. */
module TokenFamilies {

  type UserId = string
  type Jti = string
  type FamilyId = string

  const REFRESH_TOKEN_TTL_MS: int := 7 * 24 * 3600 * 1000

  /** The value under a token key: a family id, or `consumed:` and a family id. */
  datatype TokenState = Active(family: FamilyId) | Consumed(family: FamilyId)

  datatype Token = Token(user: UserId, jti: Jti)
  datatype Record = Record(state: TokenState, expiresAt: int)
  datatype JtiSet = JtiSet(jtis: set<Jti>, expiresAt: int)

  /** Token keys, and the sets of token ids by family and by user. */
  datatype Redis = Redis(tokens: map<Token, Record>, families: map<FamilyId, JtiSet>, users: map<UserId, JtiSet>)

  datatype Rejection = InvalidToken | UserGone | LegacyToken | ReuseDetected | RevokedOrReused
  datatype Outcome = Accepted(newJti: Jti) | Rejected(reason: Rejection)

  predicate LiveToken(r: Redis, t: Token, now: int) {
    t in r.tokens && now < r.tokens[t].expiresAt
  }

  /** `SMEMBERS`: an expired set has no members. */
  function Members<K>(sets: map<K, JtiSet>, k: K, now: int): set<Jti> {
    if k in sets && now < sets[k].expiresAt then sets[k].jtis else {}
  }

  /** `SADD` and `EXPIRE`. */
  function Add<K>(sets: map<K, JtiSet>, k: K, jti: Jti, now: int): map<K, JtiSet> {
    sets[k := JtiSet(Members(sets, k, now) + {jti}, now + REFRESH_TOKEN_TTL_MS)]
  }

  /** `SREM`. */
  function Drop<K>(sets: map<K, JtiSet>, k: K, jtis: set<Jti>): map<K, JtiSet> {
    if k in sets then sets[k := sets[k].(jtis := sets[k].jtis - jtis)] else sets
  }

  /** The pipeline that registers a token and renews its family and its user's set. */
  function Register(r: Redis, t: Token, f: FamilyId, now: int): Redis {
    Redis(r.tokens[t := Record(Active(f), now + REFRESH_TOKEN_TTL_MS)],
          Add(r.families, f, t.jti, now), Add(r.users, t.user, t.jti, now))
  }

  function Consume(r: Redis, t: Token, f: FamilyId, now: int): Redis {
    r.(tokens := r.tokens[t := Record(Consumed(f), now + REFRESH_TOKEN_TTL_MS)])
  }

  function TokensOf(user: UserId, jtis: set<Jti>): set<Token> {
    set j | j in jtis :: Token(user, j)
  }

  function RevokeFamily(r: Redis, user: UserId, f: FamilyId, now: int): Redis {
    var jtis := Members(r.families, f, now);
    if jtis == {} then r
    else Redis(r.tokens - TokensOf(user, jtis), r.families - {f}, Drop(r.users, user, jtis))
  }

  /** `revokeAllUserTokens`: every token the user's set lists, and the set. */
  function RevokeAll(r: Redis, user: UserId, now: int): Redis {
    var jtis := Members(r.users, user, now);
    if jtis == {} then r else Redis(r.tokens - TokensOf(user, jtis), r.families, r.users - {user})
  }

  /** The outcome of a refresh request; an empty `jti` is a token that carries none. */
  function Verdict(r: Redis, t: Token, newJti: Jti, now: int, signatureValid: bool, userExists: bool): Outcome {
    if !signatureValid then Rejected(InvalidToken)
    else if !userExists then Rejected(UserGone)
    else if t.jti == "" then Rejected(LegacyToken)
    else if !LiveToken(r, t, now) then Rejected(RevokedOrReused)
    else if r.tokens[t].state.Consumed? then Rejected(ReuseDetected)
    else Accepted(newJti)
  }

  function Refresh(r: Redis, t: Token, newJti: Jti, now: int, signatureValid: bool, userExists: bool): Redis {
    match Verdict(r, t, newJti, now, signatureValid, userExists)
    case Accepted(_) =>
      var f := r.tokens[t].state.family;
      Register(Consume(r, t, f, now), Token(t.user, newJti), f, now)
    case Rejected(ReuseDetected) => RevokeFamily(r, t.user, r.tokens[t].state.family, now)
    case Rejected(_) => r
  }

  // ---- runs, with the history that freshness speaks of ----

  datatype Event =
    | Login(user: UserId, jti: Jti, family: FamilyId, at: int)
    | RefreshRequest(token: Token, newJti: Jti, at: int, signatureValid: bool, userExists: bool)
    | RevokeAllTokens(user: UserId, at: int)

  /** `lineage` says which login each token descends from, `owners` whose login a
      family is, and `heads` the last token registered in it. */
  datatype State = State(redis: Redis, lineage: map<Jti, FamilyId>, owners: map<FamilyId, UserId>,
                         heads: map<FamilyId, Token>)

  const INITIAL := State(Redis(map[], map[], map[]), map[], map[], map[])

  function Apply(s: State, e: Event): State {
    match e
    case Login(user, jti, family, at) =>
      State(Register(s.redis, Token(user, jti), family, at),
            s.lineage[jti := family], s.owners[family := user], s.heads[family := Token(user, jti)])
    case RefreshRequest(t, newJti, at, valid, exists_) =>
      var r := Refresh(s.redis, t, newJti, at, valid, exists_);
      if Verdict(s.redis, t, newJti, at, valid, exists_).Accepted? then
        var f := s.redis.tokens[t].state.family;
        State(r, s.lineage[newJti := f], s.owners, s.heads[f := Token(t.user, newJti)])
      else s.(redis := r)
    case RevokeAllTokens(user, at) => s.(redis := RevokeAll(s.redis, user, at))
  }

  /** Random ids are new: no token or family of that name was ever issued. */
  predicate Fresh(s: State, e: Event) {
    match e
    case Login(user, jti, family, at) => jti !in s.lineage && family !in s.owners
    case RefreshRequest(_, newJti, _, _, _) => newJti !in s.lineage
    case RevokeAllTokens(_, _) => true
  }

  function RunFrom(s: State, es: seq<Event>): State {
    if es == [] then s else Apply(RunFrom(s, es[..|es| - 1]), es[|es| - 1])
  }

  /** Events come in time order after `start`, and every new id is fresh. */
  ghost predicate Proper(s: State, start: int, es: seq<Event>) {
    es != [] ==>
      && Proper(s, start, es[..|es| - 1])
      && EndTime(start, es[..|es| - 1]) <= es[|es| - 1].at
      && Fresh(RunFrom(s, es[..|es| - 1]), es[|es| - 1])
  }

  function EndTime(start: int, es: seq<Event>): int {
    if es == [] then start else es[|es| - 1].at
  }

  // ---- what every request keeps ----

  predicate Listed<K>(sets: map<K, JtiSet>, k: K, jti: Jti, expiresAt: int) {
    k in sets && jti in sets[k].jtis && sets[k].expiresAt >= expiresAt
  }

  /** A live record belongs to the family its token descends from, that family's
      owner holds it, and the sets of the family and of the user list and outlive it. */
  ghost predicate Filed(s: State, t: Token, now: int)
    requires LiveToken(s.redis, t, now)
  {
    var rec := s.redis.tokens[t];
    var f := rec.state.family;
    && t.jti in s.lineage && s.lineage[t.jti] == f
    && f in s.owners && s.owners[f] == t.user
    && Listed(s.redis.families, f, t.jti, rec.expiresAt)
    && Listed(s.redis.users, t.user, t.jti, rec.expiresAt)
    && (rec.state.Active? ==> f in s.heads && s.heads[f] == t)
  }

  ghost predicate AllDescend(lineage: map<Jti, FamilyId>, jtis: set<Jti>, f: FamilyId) {
    forall j :: j in jtis ==> j in lineage && lineage[j] == f
  }

  ghost predicate Inv(s: State, now: int) {
    && (forall f :: f in s.redis.families ==> AllDescend(s.lineage, s.redis.families[f].jtis, f))
    && (forall t :: t in s.redis.tokens ==> s.redis.tokens[t].expiresAt <= now + REFRESH_TOKEN_TTL_MS)
    && (forall t :: LiveToken(s.redis, t, now) ==> Filed(s, t, now))
    && (forall j :: j in s.lineage ==> s.lineage[j] in s.owners)
    && (forall t :: t in s.redis.tokens ==> s.redis.tokens[t].state.family in s.owners)
  }

  lemma LaterInv(s: State, now: int, later: int)
    requires Inv(s, now) && now <= later
    ensures Inv(s, later)
  {
    forall t | LiveToken(s.redis, t, later) ensures Filed(s, t, later) {
      assert LiveToken(s.redis, t, now);
    }
  }

  lemma LoginKeepsInv(s: State, e: Event)
    requires Inv(s, e.at) && e.Login? && Fresh(s, e)
    ensures Inv(Apply(s, e), e.at)
  {
    var s' := Apply(s, e);
    forall t | LiveToken(s'.redis, t, e.at) ensures Filed(s', t, e.at) {
      if t != Token(e.user, e.jti) {
        assert LiveToken(s.redis, t, e.at) && Filed(s, t, e.at);
      }
    }
  }

  lemma RotationKeepsInv(s: State, e: Event)
    requires Inv(s, e.at) && e.RefreshRequest? && Fresh(s, e)
    requires Verdict(s.redis, e.token, e.newJti, e.at, e.signatureValid, e.userExists).Accepted?
    ensures Inv(Apply(s, e), e.at)
  {
    var s' := Apply(s, e);
    var f := s.redis.tokens[e.token].state.family;
    assert Filed(s, e.token, e.at);
    forall t | LiveToken(s'.redis, t, e.at) ensures Filed(s', t, e.at) {
      if t != Token(e.token.user, e.newJti) && t != e.token {
        assert LiveToken(s.redis, t, e.at) && Filed(s, t, e.at);
      }
    }
  }

  /** Revocation deletes every live record of the family and touches no other family. */
  ghost predicate Revoked(before: Redis, after: Redis, f: FamilyId, now: int) {
    && (forall t :: LiveToken(after, t, now) ==> after.tokens[t].state.family != f)
    && (forall t :: LiveToken(before, t, now) && before.tokens[t].state.family != f ==>
          t in after.tokens && after.tokens[t] == before.tokens[t])
    && (forall t :: t in after.tokens ==> t in before.tokens && after.tokens[t] == before.tokens[t])
    && (forall g :: g in before.families && g != f ==> g in after.families && after.families[g] == before.families[g])
    && (forall g :: g in after.families ==> g in before.families && after.families[g] == before.families[g])
  }

  /** What is left on the user's list is what is not of the family, and no other list changes. */
  ghost predicate Unlisted(before: Redis, after: Redis, user: UserId, f: FamilyId, now: int) {
    && (forall j :: j in Members(after.users, user, now) <==>
                      j in Members(before.users, user, now) && j !in Members(before.families, f, now))
    && (forall u :: u != user ==> Members(after.users, u, now) == Members(before.users, u, now))
    && Members(after.families, f, now) == {}
  }

  lemma RevokeRemovesFamily(s: State, user: UserId, f: FamilyId, now: int)
    requires Inv(s, now) && f in s.owners && s.owners[f] == user
    ensures Revoked(s.redis, RevokeFamily(s.redis, user, f, now), f, now)
    ensures Unlisted(s.redis, RevokeFamily(s.redis, user, f, now), user, f, now)
  {
    var jtis := Members(s.redis.families, f, now);
    forall t | LiveToken(s.redis, t, now)
      ensures s.redis.tokens[t].state.family == f <==> t in TokensOf(user, jtis)
    {
      assert Filed(s, t, now);
      assert t in TokensOf(user, jtis) <==> t.user == user && t.jti in jtis by {
        assert t == Token(t.user, t.jti);
      }
    }
  }

  lemma ReuseKeepsInv(s: State, e: Event)
    requires Inv(s, e.at) && e.RefreshRequest?
    requires Verdict(s.redis, e.token, e.newJti, e.at, e.signatureValid, e.userExists) == Rejected(ReuseDetected)
    ensures Inv(Apply(s, e), e.at)
    ensures Revoked(s.redis, Apply(s, e).redis, s.redis.tokens[e.token].state.family, e.at)
  {
    var f := s.redis.tokens[e.token].state.family;
    assert Filed(s, e.token, e.at);
    RevokeRemovesFamily(s, e.token.user, f, e.at);
    var s' := Apply(s, e);
    var jtis := Members(s.redis.families, f, e.at);
    forall t | LiveToken(s'.redis, t, e.at) ensures Filed(s', t, e.at) {
      assert LiveToken(s.redis, t, e.at) && Filed(s, t, e.at);
      assert t.jti !in jtis;
    }
  }

  /** Every live token of the user goes, and nobody else's. */
  ghost predicate SignedOut(before: Redis, after: Redis, user: UserId, now: int) {
    && (forall t :: LiveToken(after, t, now) ==> t.user != user)
    && (forall t :: LiveToken(before, t, now) && t.user != user ==>
          t in after.tokens && after.tokens[t] == before.tokens[t])
    && (forall t :: t in after.tokens ==> t in before.tokens && after.tokens[t] == before.tokens[t])
    && after.families == before.families && Members(after.users, user, now) == {}
    && (forall u :: u != user ==> Members(after.users, u, now) == Members(before.users, u, now))
  }

  /** Revoking all of a user's tokens leaves no live token of that user, in whatever
      family, and keeps every other user's. */
  lemma RevokeAllSignsOut(s: State, user: UserId, now: int)
    requires Inv(s, now)
    ensures SignedOut(s.redis, RevokeAll(s.redis, user, now), user, now)
  {
    var jtis := Members(s.redis.users, user, now);
    forall t | LiveToken(s.redis, t, now)
      ensures t.user == user <==> t in TokensOf(user, jtis)
    {
      assert Filed(s, t, now);
      assert t == Token(t.user, t.jti);
    }
  }

  lemma RevokeAllKeepsInv(s: State, e: Event)
    requires Inv(s, e.at) && e.RevokeAllTokens?
    ensures Inv(Apply(s, e), e.at)
  {
    RevokeAllSignsOut(s, e.user, e.at);
    var s' := Apply(s, e);
    forall t | LiveToken(s'.redis, t, e.at) ensures Filed(s', t, e.at) {
      assert LiveToken(s.redis, t, e.at) && Filed(s, t, e.at);
    }
  }

  lemma ApplyKeepsInv(s: State, e: Event)
    requires Inv(s, e.at) && Fresh(s, e)
    ensures Inv(Apply(s, e), e.at)
  {
    match e
    case Login(_, _, _, _) => LoginKeepsInv(s, e);
    case RevokeAllTokens(_, _) => RevokeAllKeepsInv(s, e);
    case RefreshRequest(t, newJti, at, valid, exists_) =>
      match Verdict(s.redis, t, newJti, at, valid, exists_)
      case Accepted(_) => RotationKeepsInv(s, e);
      case Rejected(ReuseDetected) => ReuseKeepsInv(s, e);
      case Rejected(_) =>
        var s' := Apply(s, e);
        assert s' == s;
  }

  lemma {:induction false} RunKeepsInv(s: State, start: int, es: seq<Event>)
    requires Inv(s, start) && Proper(s, start, es)
    ensures Inv(RunFrom(s, es), EndTime(start, es))
  {
    if es != [] {
      var front, e := es[..|es| - 1], es[|es| - 1];
      RunKeepsInv(s, start, front);
      LaterInv(RunFrom(s, front), EndTime(start, front), e.at);
      ApplyKeepsInv(RunFrom(s, front), e);
    }
  }

  // ---- the theorems ----

  /** Whether presenting the token now, properly signed, would be accepted. */
  predicate Acceptable(r: Redis, t: Token, now: int) {
    LiveToken(r, t, now) && r.tokens[t].state.Active? && t.jti != ""
  }

  /** A refresh is accepted exactly with a valid signature, an existing user and a token
      that is live, unconsumed and has an identifier; it is taken for reuse exactly when that
      token has been consumed. */
  lemma AcceptedIff(r: Redis, t: Token, newJti: Jti, now: int, signatureValid: bool, userExists: bool)
    ensures Verdict(r, t, newJti, now, signatureValid, userExists) == Accepted(newJti) <==>
              signatureValid && userExists && Acceptable(r, t, now)
    ensures Verdict(r, t, newJti, now, signatureValid, userExists) == Rejected(ReuseDetected) <==>
              && signatureValid && userExists && t.jti != "" && t in r.tokens && now < r.tokens[t].expiresAt
              && exists f :: r.tokens[t].state == Consumed(f)
  {
    if t in r.tokens && r.tokens[t].state.Consumed? {
      assert r.tokens[t].state == Consumed(r.tokens[t].state.family);
    }
  }

  /** A login or an accepted refresh gives a token that can be refreshed for seven days, and
      a refresh uses up the one presented, which is taken for reuse as long; every other
      token is as it was. */
  lemma RotationRotates(r: Redis, t: Token, newJti: Jti, now: int, later: int, other: Token)
    requires Acceptable(r, t, now) && newJti != t.jti && newJti != "" && now <= later
    ensures var after := Refresh(r, t, newJti, now, true, true);
            && (Acceptable(after, Token(t.user, newJti), later) <==> later < now + 604800000)
            && Verdict(after, t, newJti, later, true, true) ==
                 Rejected(if later < now + 604800000 then ReuseDetected else RevokedOrReused)
            && (other != t && other != Token(t.user, newJti) ==>
                  (Acceptable(after, other, later) <==> Acceptable(r, other, later)))
  {
  }

  /** And so long the token is on the lists of its family and of its user. */
  lemma LoginLasts(r: Redis, t: Token, f: FamilyId, now: int, later: int)
    requires t.jti != ""
    ensures Acceptable(Register(r, t, f, now), t, later) <==> later < now + 604800000
    ensures t.jti in Members(Register(r, t, f, now).families, f, later) <==> later < now + 604800000
    ensures t.jti in Members(Register(r, t, f, now).users, t.user, later) <==> later < now + 604800000
  {
  }

  /** After any run each family has at most one unconsumed live token, and its set
      lists, and outlives, every live token record of the family. */
  lemma FamiliesAreWellKept(es: seq<Event>, start: int, now: int, a: Token)
    requires Proper(INITIAL, start, es) && EndTime(start, es) <= now
    requires LiveToken(RunFrom(INITIAL, es).redis, a, now)
    ensures var r := RunFrom(INITIAL, es).redis;
            var f := r.tokens[a].state.family;
            && f in r.families && a.jti in r.families[f].jtis && r.families[f].expiresAt >= r.tokens[a].expiresAt
            && (forall b :: LiveToken(r, b, now) && r.tokens[a].state == r.tokens[b].state == Active(f) ==> a == b)
  {
    var s := RunFrom(INITIAL, es);
    RunKeepsInv(INITIAL, start, es);
    LaterInv(s, EndTime(start, es), now);
    assert Filed(s, a, now);
    forall b | LiveToken(s.redis, b, now) && s.redis.tokens[a].state == s.redis.tokens[b].state && s.redis.tokens[a].state.Active?
      ensures a == b
    {
      assert Filed(s, b, now);
    }
  }

  /** A family none of whose records is live. */
  ghost predicate Extinct(s: State, f: FamilyId, now: int) {
    && f in s.owners
    && forall t :: LiveToken(s.redis, t, now) ==> s.redis.tokens[t].state.family != f
  }

  lemma ApplyKeepsExtinct(s: State, e: Event, f: FamilyId)
    requires Inv(s, e.at) && Fresh(s, e) && Extinct(s, f, e.at)
    ensures Extinct(Apply(s, e), f, e.at)
  {
    var s' := Apply(s, e);
    if e.RefreshRequest? && Verdict(s.redis, e.token, e.newJti, e.at, e.signatureValid, e.userExists) == Rejected(ReuseDetected) {
      ReuseKeepsInv(s, e);
    } else if e.RevokeAllTokens? {
      RevokeAllSignsOut(s, e.user, e.at);
    }
    forall t | LiveToken(s'.redis, t, e.at) ensures s'.redis.tokens[t].state.family != f {
      if t in s.redis.tokens && s'.redis.tokens[t] == s.redis.tokens[t] {
        assert LiveToken(s.redis, t, e.at);
      }
    }
  }

  lemma {:induction false} RunKeepsExtinct(s: State, start: int, es: seq<Event>, f: FamilyId)
    requires Inv(s, start) && Proper(s, start, es) && Extinct(s, f, start)
    ensures Extinct(RunFrom(s, es), f, EndTime(start, es))
  {
    if es != [] {
      var front, e := es[..|es| - 1], es[|es| - 1];
      RunKeepsExtinct(s, start, front, f);
      RunKeepsInv(s, start, front);
      LaterInv(RunFrom(s, front), EndTime(start, front), e.at);
      LaterExtinct(RunFrom(s, front), f, EndTime(start, front), e.at);
      ApplyKeepsExtinct(RunFrom(s, front), e, f);
    }
  }

  lemma LaterExtinct(s: State, f: FamilyId, now: int, later: int)
    requires Extinct(s, f, now) && now <= later
    ensures Extinct(s, f, later)
  {
    forall t | LiveToken(s.redis, t, later) ensures s.redis.tokens[t].state.family != f {
      assert LiveToken(s.redis, t, now);
    }
  }

  lemma ExtinctUnacceptable(s: State, f: FamilyId, t: Token, now: int)
    requires Inv(s, now) && Extinct(s, f, now) && t.jti in s.lineage && s.lineage[t.jti] == f
    ensures !Acceptable(s.redis, t, now)
  {
    assert LiveToken(s.redis, t, now) ==> Filed(s, t, now);
  }

  /** Presenting a consumed token leaves no token descended from that login
      acceptable ever again, whatever happens afterwards, and at the moment of
      revocation every live token of every other family is as it was. */
  lemma ReuseRevokesForever(es: seq<Event>, start: int, e: Event, later: seq<Event>, now: int, t: Token)
    requires Proper(INITIAL, start, es) && EndTime(start, es) <= e.at
    requires var s := RunFrom(INITIAL, es);
             e.RefreshRequest? && Fresh(s, e) &&
             Verdict(s.redis, e.token, e.newJti, e.at, e.signatureValid, e.userExists) == Rejected(ReuseDetected)
    requires Proper(Apply(RunFrom(INITIAL, es), e), e.at, later) && EndTime(e.at, later) <= now
    ensures var s := RunFrom(INITIAL, es);
            var f := s.redis.tokens[e.token].state.family;
            var end := RunFrom(Apply(s, e), later);
            && e.token.jti in s.lineage && s.lineage[e.token.jti] == f
            && (t.jti in end.lineage && end.lineage[t.jti] == f ==> !Acceptable(end.redis, t, now))
            && Revoked(s.redis, Apply(s, e).redis, f, e.at)
  {
    var s := RunFrom(INITIAL, es);
    var f := s.redis.tokens[e.token].state.family;
    RunKeepsInv(INITIAL, start, es);
    LaterInv(s, EndTime(start, es), e.at);
    assert Filed(s, e.token, e.at);
    ReuseKeepsInv(s, e);
    var s1 := Apply(s, e);
    RunKeepsExtinct(s1, e.at, later, f);
    RunKeepsInv(s1, e.at, later);
    var end := RunFrom(s1, later);
    LaterExtinct(end, f, EndTime(e.at, later), now);
    LaterInv(end, EndTime(e.at, later), now);
    if t.jti in end.lineage && end.lineage[t.jti] == f {
      ExtinctUnacceptable(end, f, t, now);
    }
  }

  /** Revoking all of a user's tokens leaves no token of any login the user had made by
      then acceptable ever again, whatever happens afterwards. */
  lemma RevokeAllForever(es: seq<Event>, start: int, e: Event, later: seq<Event>, now: int, t: Token)
    requires Proper(INITIAL, start, es) && EndTime(start, es) <= e.at && e.RevokeAllTokens?
    requires Proper(Apply(RunFrom(INITIAL, es), e), e.at, later) && EndTime(e.at, later) <= now
    ensures var s := RunFrom(INITIAL, es);
            var end := RunFrom(Apply(s, e), later);
            && SignedOut(s.redis, Apply(s, e).redis, e.user, e.at)
            && (t.jti in end.lineage && end.lineage[t.jti] in s.owners && s.owners[end.lineage[t.jti]] == e.user ==>
                  !Acceptable(end.redis, t, now))
  {
    var s := RunFrom(INITIAL, es);
    RunKeepsInv(INITIAL, start, es);
    LaterInv(s, EndTime(start, es), e.at);
    RevokeAllSignsOut(s, e.user, e.at);
    ApplyKeepsInv(s, e);
    var s1 := Apply(s, e);
    var end := RunFrom(s1, later);
    if t.jti in end.lineage && end.lineage[t.jti] in s.owners && s.owners[end.lineage[t.jti]] == e.user {
      var f := end.lineage[t.jti];
      forall u | LiveToken(s1.redis, u, e.at)
        ensures s1.redis.tokens[u].state.family != f
      {
        assert Filed(s1, u, e.at);
      }
      RunKeepsExtinct(s1, e.at, later, f);
      RunKeepsInv(s1, e.at, later);
      LaterExtinct(end, f, EndTime(e.at, later), now);
      LaterInv(end, EndTime(e.at, later), now);
      ExtinctUnacceptable(end, f, t, now);
    }
  }

  // ---- the service over its Redis keys ----

  class AuthService {
    var tokens: map<Token, Record>
    var families: map<FamilyId, JtiSet>
    var users: map<UserId, JtiSet>

    ghost function Model(): Redis
      reads this
    {
      Redis(tokens, families, users)
    }

    constructor ()
      ensures Model() == INITIAL.redis
    {
      tokens, families, users := map[], map[], map[];
    }

    /** The token-registering part of `login`. */
    method Login(user: UserId, jti: Jti, familyId: FamilyId, now: int)
      modifies this
      ensures Model() == Register(old(Model()), Token(user, jti), familyId, now)
    {
      tokens := tokens[Token(user, jti) := Record(Active(familyId), now + REFRESH_TOKEN_TTL_MS)];
      families := families[familyId := JtiSet(Members(families, familyId, now) + {jti}, now + REFRESH_TOKEN_TTL_MS)];
      users := users[user := JtiSet(Members(users, user, now) + {jti}, now + REFRESH_TOKEN_TTL_MS)];
    }

    method RefreshToken(t: Token, newJti: Jti, now: int, signatureValid: bool, userExists: bool) returns (outcome: Outcome)
      modifies this
      ensures outcome == Verdict(old(Model()), t, newJti, now, signatureValid, userExists)
      ensures Model() == Refresh(old(Model()), t, newJti, now, signatureValid, userExists)
    {
      if !signatureValid {
        return Rejected(InvalidToken);
      }
      if !userExists {
        return Rejected(UserGone);
      }
      if t.jti == "" {
        return Rejected(LegacyToken);
      }
      if !(t in tokens && now < tokens[t].expiresAt) {
        return Rejected(RevokedOrReused);
      }
      var state := tokens[t].state;
      if state.Consumed? {
        RevokeTokenFamily(t.user, state.family, now);
        return Rejected(ReuseDetected);
      }
      tokens := tokens[t := Record(Consumed(state.family), now + REFRESH_TOKEN_TTL_MS)];
      Login(t.user, newJti, state.family, now);
      return Accepted(newJti);
    }

    method RevokeTokenFamily(user: UserId, familyId: FamilyId, now: int)
      modifies this
      ensures Model() == RevokeFamily(old(Model()), user, familyId, now)
    {
      var jtis := Members(families, familyId, now);
      if jtis == {} {
        return;
      }
      DeleteTokens(user, jtis);
      users := Drop(users, user, jtis);
      families := families - {familyId};
    }

    method RevokeAllUserTokens(user: UserId, now: int)
      modifies this
      ensures Model() == RevokeAll(old(Model()), user, now)
    {
      var jtis := Members(users, user, now);
      if jtis == {} {
        return;
      }
      DeleteTokens(user, jtis);
      users := users - {user};
    }

    /** The deletion loop over a set's members. */
    method DeleteTokens(user: UserId, jtis: set<Jti>)
      modifies this`tokens
      ensures tokens == old(tokens) - TokensOf(user, jtis)
    {
      var pending := jtis;
      while pending != {}
        invariant pending <= jtis
        invariant tokens == old(tokens) - TokensOf(user, jtis - pending)
        decreases pending
      {
        var jti :| jti in pending;
        assert TokensOf(user, jtis - (pending - {jti})) == TokensOf(user, jtis - pending) + {Token(user, jti)};
        tokens := tokens - {Token(user, jti)};
        pending := pending - {jti};
      }
    }
  }
}
