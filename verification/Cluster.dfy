/** Edges filling their caches from each other and from the origin, one step of
    `getEdgeContent` at a time, in any interleaving and among any evictions. */
module Cluster {
  import opened CacheKeys
  import opened Options
  import opened Totals

  type EdgeId = string

  type Path = string

  /** Objects above this size are not cached when they come from the origin. */
  const CACHEABLE: nat := 100 * 1024 * 1024

  /** A client's request, or the `index`-th peer request of a client's request. */
  datatype Mode = Client | Peer(parent: nat, index: nat)

  datatype Stage =
    | Arrived
    | Missed
    | Waiting
    | Leading
    | Asking(peers: seq<EdgeId>, next: nat, path: Option<Path>)
    | Asked(peers: seq<EdgeId>, next: nat, path: Option<Path>, child: nat)
    | AtOrigin(path: Option<Path>)
    | Fetching(source: Path)
    | Filled(bytes: Bytes, caches: bool)
    | Direct
    | Served(bytes: Bytes)
    | NotFound
    | Failed

  datatype Request = Request(edge: EdgeId, key: Key, mode: Mode, stage: Stage)

  type Cache = map<Key, Bytes>

  type Requests = map<nat, Request>

  /** The version rows' storage paths, and the origin store. */
  datatype Origin = Origin(versions: map<Key, Path>, objects: map<Path, Bytes>)

  /** `asked` remembers which request was which attempt of which request. */
  datatype State = State(origin: Origin, caches: map<EdgeId, Cache>, requests: Requests, asked: map<(nat, nat), nat>)

  datatype Event =
    | Publish(key: Key, path: Path, bytes: Bytes)
    | Evict(edge: EdgeId, keys: set<Key>)
    | Arrive(r: nat, edge: EdgeId, key: Key)
    | Look(r: nat)
    | Lock(r: nat, acquired: bool)
    | Retry(r: nat)
    | Place(r: nat, answered: bool, replicas: seq<EdgeId>)
    | Ask(r: nat, child: nat)
    | TakeReply(r: nat)
    | PeerFails(r: nat)
    | GiveUpPeers(r: nat)
    | ResolvePath(r: nat, answered: bool)
    | Fetch(r: nat)
    | Store(r: nat, ok: bool)
    | Stream(r: nat, ok: bool)
    | Fail(r: nat)

  function CacheOf(s: State, edge: EdgeId): Cache {
    if edge in s.caches then s.caches[edge] else map[]
  }

  function At(s: State, r: nat, stage: Stage): State
    requires r in s.requests
  {
    s.(requests := s.requests[r := s.requests[r].(stage := stage)])
  }

  // ---- the stages of one request ----

  /** The local cache answers; without it a peer's request is answered 404. */
  function LookStage(q: Request, cache: Cache): Stage {
    if q.key in cache then Served(cache[q.key])
    else if q.mode.Peer? then NotFound
    else Missed
  }

  function RetryStage(q: Request, cache: Cache): Stage {
    if q.key in cache then Served(cache[q.key]) else Direct
  }

  function Upto(replicas: seq<EdgeId>, attempts: nat): seq<EdgeId> {
    if |replicas| <= attempts then replicas else replicas[..attempts]
  }

  /** The placement names replicas and the storage path of an existing version. */
  function PlaceStage(o: Origin, q: Request, answered: bool, replicas: seq<EdgeId>, attempts: nat): Stage {
    if answered && q.key in o.versions then Asking(Upto(replicas, attempts), 0, Some(o.versions[q.key]))
    else AtOrigin(None)
  }

  function ResolveStage(o: Origin, q: Request, path: Option<Path>, answered: bool): Stage {
    if path.Some? then Fetching(path.value)
    else if answered && q.key in o.versions then Fetching(o.versions[q.key])
    else NotFound
  }

  function FetchStage(o: Origin, path: Path): Stage {
    if path in o.objects then Filled(o.objects[path], |o.objects[path]| <= CACHEABLE) else Failed
  }

  function StreamStage(o: Origin, q: Request, ok: bool): Stage {
    if ok && q.key in o.versions && o.versions[q.key] in o.objects then Served(o.objects[o.versions[q.key]]) else Failed
  }

  function NextPeer(asking: Stage): Stage
    requires asking.Asked?
  {
    Asking(asking.peers, asking.next + 1, asking.path)
  }

  function ReplyStage(asking: Stage, reply: Stage): Stage
    requires asking.Asked?
  {
    match reply
    case Served(bytes) => Filled(bytes, true)
    case NotFound => NextPeer(asking)
    case Failed => NextPeer(asking)
    case _ => asking
  }

  // ---- one step ----

  /** The next peer gets a request of its own, in peer mode. */
  function AskStep(s: State, r: nat, child: nat): State
    requires r in s.requests && s.requests[r].stage.Asking?
  {
    var q := s.requests[r];
    var a := q.stage;
    if a.next >= |a.peers| || child in s.requests then s
    else
      var asked := q.(stage := Asked(a.peers, a.next, a.path, child));
      var peer := Request(a.peers[a.next], q.key, Peer(r, a.next), Arrived);
      s.(requests := s.requests[r := asked][child := peer], asked := s.asked[(r, a.next) := child])
  }

  function StoreStep(s: State, r: nat, ok: bool): State
    requires r in s.requests && s.requests[r].stage.Filled?
  {
    var q := s.requests[r];
    if !q.stage.caches then At(s, r, Served(q.stage.bytes))
    else if !ok then At(s, r, Failed)
    else
      At(s, r, Served(q.stage.bytes)).(
        caches := s.caches[q.edge := CacheOf(s, q.edge)[q.key := q.stage.bytes]])
  }

  function RequestStep(s: State, e: Event, attempts: nat): State
    requires !e.Publish? && !e.Evict? && !e.Arrive? && e.r in s.requests
  {
    var r, q := e.r, s.requests[e.r];
    match e
    case Look(_) => if q.stage.Arrived? then At(s, r, LookStage(q, CacheOf(s, q.edge))) else s
    case Lock(_, acquired) => if q.stage.Missed? then At(s, r, if acquired then Leading else Waiting) else s
    case Retry(_) => if q.stage.Waiting? then At(s, r, RetryStage(q, CacheOf(s, q.edge))) else s
    case Place(_, answered, replicas) =>
      if q.stage.Leading? then At(s, r, PlaceStage(s.origin, q, answered, replicas, attempts)) else s
    case Ask(_, child) => if q.stage.Asking? then AskStep(s, r, child) else s
    case TakeReply(_) =>
      if q.stage.Asked? && q.stage.child in s.requests then
        At(s, r, ReplyStage(q.stage, s.requests[q.stage.child].stage)) else s
    case PeerFails(_) =>
      if q.stage.Asked? then At(s, r, NextPeer(q.stage)) else s
    case GiveUpPeers(_) =>
      if q.stage.Asking? && q.stage.next >= |q.stage.peers| then At(s, r, AtOrigin(q.stage.path)) else s
    case ResolvePath(_, answered) =>
      if q.stage.AtOrigin? then At(s, r, ResolveStage(s.origin, q, q.stage.path, answered)) else s
    case Fetch(_) => if q.stage.Fetching? then At(s, r, FetchStage(s.origin, q.stage.source)) else s
    case Store(_, ok) => if q.stage.Filled? then StoreStep(s, r, ok) else s
    case Stream(_, ok) => if q.stage.Direct? then At(s, r, StreamStage(s.origin, q, ok)) else s
    case Fail(_) => if q.stage.Served? || q.stage.NotFound? then s else At(s, r, Failed)
    case _ => s
  }

  function Step(s: State, e: Event, attempts: nat): State {
    match e
    case Publish(key, path, bytes) =>
      if key in s.origin.versions || path in s.origin.objects then s
      else s.(origin := Origin(s.origin.versions[key := path], s.origin.objects[path := bytes]))
    case Evict(edge, keys) => s.(caches := s.caches[edge := CacheOf(s, edge) - keys])
    case Arrive(r, edge, key) =>
      if r in s.requests then s else s.(requests := s.requests[r := Request(edge, key, Client, Arrived)])
    case _ => if e.r in s.requests then RequestStep(s, e, attempts) else s
  }

  const EMPTY := State(Origin(map[], map[]), map[], map[], map[])

  function Run(events: seq<Event>, attempts: nat): State {
    if events == [] then EMPTY
    else Step(Run(events[..|events| - 1], attempts), events[|events| - 1], attempts)
  }

  // ---- coherence ----

  /** The origin object of that version. */
  predicate Right(o: Origin, key: Key, bytes: Bytes) {
    key in o.versions && o.versions[key] in o.objects && o.objects[o.versions[key]] == bytes
  }

  predicate RightPath(o: Origin, key: Key, path: Path) {
    key in o.versions && o.versions[key] == path
  }

  ghost predicate CacheRight(o: Origin, cache: Cache) {
    forall k :: k in cache ==> Right(o, k, cache[k]) && |cache[k]| <= CACHEABLE
  }

  ghost predicate CachesRight(o: Origin, caches: map<EdgeId, Cache>) {
    forall e :: e in caches ==> CacheRight(o, caches[e])
  }

  /** What a request holds is right, and what it may still cache is small enough. */
  predicate StageRight(o: Origin, q: Request) {
    match q.stage
    case Served(bytes) => Right(o, q.key, bytes) && (q.mode.Peer? ==> |bytes| <= CACHEABLE)
    case Filled(bytes, caches) => Right(o, q.key, bytes) && (caches ==> |bytes| <= CACHEABLE)
    case Asking(_, _, path) => path.Some? ==> RightPath(o, q.key, path.value)
    case Asked(_, _, path, _) => path.Some? ==> RightPath(o, q.key, path.value)
    case AtOrigin(path) => path.Some? ==> RightPath(o, q.key, path.value)
    case Fetching(path) => RightPath(o, q.key, path)
    case _ => true
  }

  /** A peer's request only ever looks into the local cache. */
  predicate PeerLocal(q: Request) {
    q.mode.Peer? ==> q.stage.Arrived? || q.stage.Served? || q.stage.NotFound? || q.stage.Failed?
  }

  /** It was sent by a client's request for the same version, as the attempt it says. */
  predicate PeerOfClient(s: State, c: nat, q: Request, attempts: nat) {
    q.mode.Peer? ==>
      && q.mode.index < attempts && (q.mode.parent, q.mode.index) in s.asked
      && s.asked[(q.mode.parent, q.mode.index)] == c
      && q.mode.parent in s.requests && s.requests[q.mode.parent].mode.Client?
      && s.requests[q.mode.parent].key == q.key
  }

  /** The request one waits for is its current attempt. */
  predicate AskingRight(requests: Requests, r: nat, q: Request, attempts: nat) {
    match q.stage
    case Asked(peers, next, _, child) =>
      && next < |peers| <= attempts && child in requests
      && requests[child].key == q.key && requests[child].mode == Peer(r, next)
    case Asking(peers, next, _) => next <= |peers| <= attempts
    case _ => true
  }

  /** How many attempts a request can have made so far. */
  function MadeSoFar(q: Request, attempts: nat): nat {
    match q.stage
    case Arrived => 0
    case Missed => 0
    case Waiting => 0
    case Leading => 0
    case Asking(_, next, _) => next
    case Asked(_, next, _, _) => next + 1
    case _ => attempts
  }

  ghost predicate StagesRight(o: Origin, requests: Requests) {
    forall r :: r in requests ==> StageRight(o, requests[r]) && PeerLocal(requests[r])
  }

  ghost predicate ChildrenRight(s: State, attempts: nat) {
    forall r :: r in s.requests ==> PeerOfClient(s, r, s.requests[r], attempts)
  }

  ghost predicate AskersRight(requests: Requests, attempts: nat) {
    forall r :: r in requests ==> AskingRight(requests, r, requests[r], attempts)
  }

  ghost predicate AskedRight(s: State, attempts: nat) {
    forall p :: p in s.asked ==>
      p.0 in s.requests && s.requests[p.0].mode.Client? && p.1 < MadeSoFar(s.requests[p.0], attempts)
  }

  ghost predicate TreeRight(s: State, attempts: nat) {
    ChildrenRight(s, attempts) && AskersRight(s.requests, attempts) && AskedRight(s, attempts)
  }

  ghost predicate Inv(s: State, attempts: nat) {
    && (forall k :: k in s.origin.versions ==> s.origin.versions[k] in s.origin.objects)
    && CachesRight(s.origin, s.caches) && StagesRight(s.origin, s.requests) && TreeRight(s, attempts)
  }

  // ---- steps keep it ----

  lemma PublishKeeps(s: State, key: Key, path: Path, bytes: Bytes, attempts: nat)
    requires Inv(s, attempts)
    ensures Inv(Step(s, Publish(key, path, bytes), attempts), attempts)
  {
    var t := Step(s, Publish(key, path, bytes), attempts);
    forall r | r in t.requests
      ensures PeerOfClient(t, r, t.requests[r], attempts)
    {
      assert PeerOfClient(s, r, s.requests[r], attempts);
    }
  }

  lemma EvictKeeps(s: State, edge: EdgeId, keys: set<Key>, attempts: nat)
    requires Inv(s, attempts)
    ensures Inv(Step(s, Evict(edge, keys), attempts), attempts)
  {
    var t := Step(s, Evict(edge, keys), attempts);
    forall r | r in t.requests
      ensures PeerOfClient(t, r, t.requests[r], attempts)
    {
      assert PeerOfClient(s, r, s.requests[r], attempts);
    }
  }

  lemma ArriveKeeps(s: State, r: nat, edge: EdgeId, key: Key, attempts: nat)
    requires Inv(s, attempts)
    ensures Inv(Step(s, Arrive(r, edge, key), attempts), attempts)
  {
    var t := Step(s, Arrive(r, edge, key), attempts);
    forall x | x in t.requests
      ensures PeerOfClient(t, x, t.requests[x], attempts) && AskingRight(t.requests, x, t.requests[x], attempts)
    {
      assert x in s.requests ==>
        PeerOfClient(s, x, s.requests[x], attempts) && AskingRight(s.requests, x, s.requests[x], attempts);
    }
  }

  lemma MoveKeepsTree(s: State, r: nat, stage: Stage, attempts: nat)
    requires TreeRight(s, attempts) && r in s.requests
    requires var q := s.requests[r].(stage := stage);
             AskingRight(s.requests, r, q, attempts) && MadeSoFar(s.requests[r], attempts) <= MadeSoFar(q, attempts)
    ensures TreeRight(At(s, r, stage), attempts)
  {
    var t := At(s, r, stage);
    forall x | x in t.requests
      ensures PeerOfClient(t, x, t.requests[x], attempts) && AskingRight(t.requests, x, t.requests[x], attempts)
    {
      assert PeerOfClient(s, x, s.requests[x], attempts) && AskingRight(s.requests, x, s.requests[x], attempts);
    }
  }

  /** Moving one request to a stage that suits it. */
  lemma MoveKeeps(s: State, r: nat, stage: Stage, attempts: nat)
    requires Inv(s, attempts) && r in s.requests
    requires var q := s.requests[r].(stage := stage);
             StageRight(s.origin, q) && PeerLocal(q) && AskingRight(s.requests, r, q, attempts) &&
             MadeSoFar(s.requests[r], attempts) <= MadeSoFar(q, attempts)
    ensures Inv(At(s, r, stage), attempts)
  {
    MoveKeepsTree(s, r, stage, attempts);
  }

  lemma AskKeepsChildren(s: State, r: nat, child: nat, attempts: nat)
    requires ChildrenRight(s, attempts) && AskedRight(s, attempts)
    requires r in s.requests && s.requests[r].stage.Asking? && s.requests[r].mode.Client?
    requires AskingRight(s.requests, r, s.requests[r], attempts)
    ensures ChildrenRight(AskStep(s, r, child), attempts)
  {
    var t := AskStep(s, r, child);
    forall x | x in t.requests
      ensures PeerOfClient(t, x, t.requests[x], attempts)
    {
      if x in s.requests {
        assert PeerOfClient(s, x, s.requests[x], attempts);
      }
    }
  }

  lemma AskKeepsAskers(s: State, r: nat, child: nat, attempts: nat)
    requires AskersRight(s.requests, attempts) && r in s.requests && s.requests[r].stage.Asking?
    ensures AskersRight(AskStep(s, r, child).requests, attempts)
  {
    var t := AskStep(s, r, child);
    forall x | x in t.requests
      ensures AskingRight(t.requests, x, t.requests[x], attempts)
    {
      if x in s.requests {
        assert AskingRight(s.requests, x, s.requests[x], attempts);
      }
    }
  }

  lemma AskKeepsTree(s: State, r: nat, child: nat, attempts: nat)
    requires TreeRight(s, attempts) && r in s.requests && s.requests[r].stage.Asking? && s.requests[r].mode.Client?
    ensures TreeRight(AskStep(s, r, child), attempts)
  {
    AskKeepsChildren(s, r, child, attempts);
    AskKeepsAskers(s, r, child, attempts);
    assert AskedRight(AskStep(s, r, child), attempts);
  }

  lemma AskKeeps(s: State, r: nat, child: nat, attempts: nat)
    requires Inv(s, attempts) && r in s.requests && s.requests[r].stage.Asking?
    ensures Inv(AskStep(s, r, child), attempts)
  {
    assert PeerLocal(s.requests[r]);
    AskKeepsTree(s, r, child, attempts);
  }

  lemma CachingKeeps(s: State, edge: EdgeId, key: Key, bytes: Bytes, attempts: nat)
    requires Inv(s, attempts) && Right(s.origin, key, bytes) && |bytes| <= CACHEABLE
    ensures Inv(s.(caches := s.caches[edge := CacheOf(s, edge)[key := bytes]]), attempts)
  {
    var t := s.(caches := s.caches[edge := CacheOf(s, edge)[key := bytes]]);
    forall r | r in t.requests
      ensures PeerOfClient(t, r, t.requests[r], attempts)
    {
      assert PeerOfClient(s, r, s.requests[r], attempts);
    }
  }

  lemma StoreKeeps(s: State, r: nat, ok: bool, attempts: nat)
    requires Inv(s, attempts) && r in s.requests && s.requests[r].stage.Filled?
    ensures Inv(StoreStep(s, r, ok), attempts)
  {
    var q := s.requests[r];
    assert StageRight(s.origin, q) && PeerLocal(q);
    if !q.stage.caches || ok {
      MoveKeeps(s, r, Served(q.stage.bytes), attempts);
      if q.stage.caches {
        CachingKeeps(At(s, r, Served(q.stage.bytes)), q.edge, q.key, q.stage.bytes, attempts);
      }
    } else {
      MoveKeeps(s, r, Failed, attempts);
    }
  }

  lemma LookKeeps(s: State, r: nat, attempts: nat)
    requires Inv(s, attempts) && r in s.requests
    ensures s.requests[r].stage.Arrived? ==> Inv(At(s, r, LookStage(s.requests[r], CacheOf(s, s.requests[r].edge))), attempts)
    ensures s.requests[r].stage.Waiting? ==> Inv(At(s, r, RetryStage(s.requests[r], CacheOf(s, s.requests[r].edge))), attempts)
  {
    var q := s.requests[r];
    assert StageRight(s.origin, q) && PeerLocal(q);
    if q.stage.Arrived? {
      MoveKeeps(s, r, LookStage(q, CacheOf(s, q.edge)), attempts);
    } else if q.stage.Waiting? {
      MoveKeeps(s, r, RetryStage(q, CacheOf(s, q.edge)), attempts);
    }
  }

  lemma NextPeerKeeps(s: State, r: nat, stage: Stage, attempts: nat)
    requires Inv(s, attempts) && r in s.requests && s.requests[r].stage.Asked?
    requires stage == NextPeer(s.requests[r].stage)
    ensures Inv(At(s, r, stage), attempts)
  {
    var q := s.requests[r];
    assert StageRight(s.origin, q) && PeerLocal(q) && AskingRight(s.requests, r, q, attempts);
    MoveKeeps(s, r, stage, attempts);
  }

  lemma PeerHitKeeps(s: State, r: nat, bytes: Bytes, attempts: nat)
    requires Inv(s, attempts) && r in s.requests && s.requests[r].stage.Asked?
    requires s.requests[r].stage.child in s.requests && s.requests[s.requests[r].stage.child].stage == Served(bytes)
    ensures Inv(At(s, r, Filled(bytes, true)), attempts)
  {
    var q := s.requests[r];
    assert StageRight(s.origin, q) && PeerLocal(q) && AskingRight(s.requests, r, q, attempts);
    assert StageRight(s.origin, s.requests[q.stage.child]);
    MoveKeeps(s, r, Filled(bytes, true), attempts);
  }

  lemma ReplyKeeps(s: State, r: nat, attempts: nat)
    requires Inv(s, attempts) && r in s.requests && s.requests[r].stage.Asked? && s.requests[r].stage.child in s.requests
    ensures Inv(At(s, r, ReplyStage(s.requests[r].stage, s.requests[s.requests[r].stage.child].stage)), attempts)
  {
    var asking := s.requests[r].stage;
    match s.requests[asking.child].stage
    case Served(bytes) => PeerHitKeeps(s, r, bytes, attempts);
    case NotFound => NextPeerKeeps(s, r, NextPeer(asking), attempts);
    case Failed => NextPeerKeeps(s, r, NextPeer(asking), attempts);
    case _ => assert s.requests[r] == s.requests[r].(stage := asking) && At(s, r, asking) == s;
  }

  lemma PathKeeps(s: State, e: Event, attempts: nat)
    requires Inv(s, attempts) && (e.GiveUpPeers? || e.ResolvePath?) && e.r in s.requests
    ensures Inv(RequestStep(s, e, attempts), attempts)
  {
    var r, q := e.r, s.requests[e.r];
    assert StageRight(s.origin, q) && PeerLocal(q) && AskingRight(s.requests, r, q, attempts);
    if e.GiveUpPeers? && q.stage.Asking? && q.stage.next >= |q.stage.peers| {
      MoveKeeps(s, r, AtOrigin(q.stage.path), attempts);
    } else if e.ResolvePath? && q.stage.AtOrigin? {
      MoveKeeps(s, r, ResolveStage(s.origin, q, q.stage.path, e.answered), attempts);
    }
  }

  lemma ObjectKeeps(s: State, e: Event, attempts: nat)
    requires Inv(s, attempts) && (e.Fetch? || e.Stream?) && e.r in s.requests
    ensures Inv(RequestStep(s, e, attempts), attempts)
  {
    var r, q := e.r, s.requests[e.r];
    assert StageRight(s.origin, q) && PeerLocal(q) && AskingRight(s.requests, r, q, attempts);
    if e.Fetch? && q.stage.Fetching? {
      MoveKeeps(s, r, FetchStage(s.origin, q.stage.source), attempts);
    } else if e.Stream? && q.stage.Direct? {
      MoveKeeps(s, r, StreamStage(s.origin, q, e.ok), attempts);
    }
  }

  lemma LeadKeeps(s: State, e: Event, attempts: nat)
    requires Inv(s, attempts) && (e.Lock? || e.Place? || e.Fail?) && e.r in s.requests
    ensures Inv(RequestStep(s, e, attempts), attempts)
  {
    var r, q := e.r, s.requests[e.r];
    assert StageRight(s.origin, q) && PeerLocal(q) && AskingRight(s.requests, r, q, attempts);
    if e.Lock? && q.stage.Missed? {
      MoveKeeps(s, r, if e.acquired then Leading else Waiting, attempts);
    } else if e.Place? && q.stage.Leading? {
      MoveKeeps(s, r, PlaceStage(s.origin, q, e.answered, e.replicas, attempts), attempts);
    } else if e.Fail? && !q.stage.Served? && !q.stage.NotFound? {
      MoveKeeps(s, r, Failed, attempts);
    }
  }

  lemma PeerEventKeeps(s: State, e: Event, attempts: nat)
    requires Inv(s, attempts) && (e.Ask? || e.TakeReply? || e.PeerFails?) && e.r in s.requests
    ensures Inv(RequestStep(s, e, attempts), attempts)
  {
    var r, stage := e.r, s.requests[e.r].stage;
    if e.Ask? {
      if stage.Asking? {
        AskKeeps(s, r, e.child, attempts);
      }
    } else if stage.Asked? {
      NextPeerKeeps(s, r, NextPeer(stage), attempts);
      if stage.child in s.requests {
        ReplyKeeps(s, r, attempts);
      }
    }
  }

  lemma RequestStepKeeps(s: State, e: Event, attempts: nat)
    requires Inv(s, attempts) && !e.Publish? && !e.Evict? && !e.Arrive? && e.r in s.requests
    ensures Inv(RequestStep(s, e, attempts), attempts)
  {
    if e.Look? || e.Retry? {
      LookKeeps(s, e.r, attempts);
    } else if e.Ask? || e.TakeReply? || e.PeerFails? {
      PeerEventKeeps(s, e, attempts);
    } else if e.Store? {
      if s.requests[e.r].stage.Filled? {
        StoreKeeps(s, e.r, e.ok, attempts);
      }
    } else if e.Lock? || e.Place? || e.Fail? {
      LeadKeeps(s, e, attempts);
    } else if e.GiveUpPeers? || e.ResolvePath? {
      PathKeeps(s, e, attempts);
    } else {
      ObjectKeeps(s, e, attempts);
    }
  }

  lemma StepKeeps(s: State, e: Event, attempts: nat)
    requires Inv(s, attempts)
    ensures Inv(Step(s, e, attempts), attempts)
  {
    match e
    case Publish(key, path, bytes) => PublishKeeps(s, key, path, bytes, attempts);
    case Evict(edge, keys) => EvictKeeps(s, edge, keys, attempts);
    case Arrive(r, edge, key) => ArriveKeeps(s, r, edge, key, attempts);
    case _ =>
      if e.r in s.requests {
        RequestStepKeeps(s, e, attempts);
      }
  }

  lemma {:induction false} RunKeeps(events: seq<Event>, attempts: nat)
    ensures Inv(Run(events, attempts), attempts)
  {
    if events != [] {
      RunKeeps(events[..|events| - 1], attempts);
      StepKeeps(Run(events[..|events| - 1], attempts), events[|events| - 1], attempts);
    }
  }

  // ---- what follows ----

  /** In every reachable state of the cluster, whatever any edge has cached, whatever a
      request has been served and whatever is on its way into a cache is that version's
      origin object; and nothing cached is above the limit, though only fills from the
      origin check it. */
  lemma ClusterIsCoherent(events: seq<Event>, attempts: nat)
    ensures var s := Run(events, attempts);
            && (forall e, k :: e in s.caches && k in s.caches[e] ==>
                  Right(s.origin, k, s.caches[e][k]) && |s.caches[e][k]| <= CACHEABLE)
            && (forall r :: r in s.requests && s.requests[r].stage.Served? ==>
                  Right(s.origin, s.requests[r].key, s.requests[r].stage.bytes))
            && (forall r :: r in s.requests && s.requests[r].stage.Filled? ==>
                  Right(s.origin, s.requests[r].key, s.requests[r].stage.bytes))
  {
    RunKeeps(events, attempts);
    var s := Run(events, attempts);
    forall r | r in s.requests && (s.requests[r].stage.Served? || s.requests[r].stage.Filled?)
      ensures Right(s.origin, s.requests[r].key, s.requests[r].stage.bytes)
    {
      assert StageRight(s.origin, s.requests[r]);
    }
    forall e, k | e in s.caches && k in s.caches[e]
      ensures Right(s.origin, k, s.caches[e][k]) && |s.caches[e][k]| <= CACHEABLE
    {
      assert CacheRight(s.origin, s.caches[e]);
    }
  }

  /** Fills never recurse: a peer's request is answered from the local cache alone, its
      sender is a client's request for the same version, it asks nobody itself, and a
      client's request has at most one peer request per attempt, within the configured
      number. */
  lemma FillsDoNotRecurse(events: seq<Event>, attempts: nat, c: nat)
    requires c in Run(events, attempts).requests && Run(events, attempts).requests[c].mode.Peer?
    ensures var s := Run(events, attempts);
            var q := s.requests[c];
            && PeerLocal(q)
            && q.mode.index < attempts && (q.mode.parent, q.mode.index) in s.asked
            && s.asked[(q.mode.parent, q.mode.index)] == c
            && q.mode.parent in s.requests && s.requests[q.mode.parent].mode.Client?
            && s.requests[q.mode.parent].key == q.key
            && (forall p :: p in s.asked ==> p.0 != c)
  {
    RunKeeps(events, attempts);
    var s := Run(events, attempts);
    assert PeerLocal(s.requests[c]) && PeerOfClient(s, c, s.requests[c], attempts);
  }

  // ---- who has been asked ----

  /** Attempt `i` of request `r` went to that peer, for the same version. */
  predicate AskedAt(s: State, r: nat, peers: seq<EdgeId>, i: nat)
    requires r in s.requests && i < |peers|
  {
    && (r, i) in s.asked && s.asked[(r, i)] in s.requests
    && var c := s.requests[s.asked[(r, i)]];
       c.edge == peers[i] && c.mode == Peer(r, i) && c.key == s.requests[r].key
  }

  ghost predicate AskedUpTo(s: State, r: nat, peers: seq<EdgeId>, n: nat)
    requires r in s.requests && n <= |peers|
  {
    forall i :: 0 <= i < n ==> AskedAt(s, r, peers, i)
  }

  /** Every peer before the one whose turn it is has been asked. */
  ghost predicate AskedInTurn(s: State, r: nat)
    requires r in s.requests
  {
    match s.requests[r].stage
    case Asking(peers, next, _) => next <= |peers| && AskedUpTo(s, r, peers, next)
    case Asked(peers, next, _, _) => next < |peers| && AskedUpTo(s, r, peers, next + 1)
    case _ => true
  }

  ghost predicate AllAskedInTurn(s: State) {
    forall r :: r in s.requests ==> AskedInTurn(s, r)
  }

  predicate SameSender(a: Request, b: Request) {
    a.edge == b.edge && a.key == b.key && a.mode == b.mode
  }

  /** Requests keep what they are for, and what was asked stays on record. */
  ghost predicate Remembers(s: State, t: State) {
    && (forall r :: r in s.requests ==> r in t.requests && SameSender(s.requests[r], t.requests[r]))
    && (forall p :: p in s.asked ==> p in t.asked && t.asked[p] == s.asked[p])
  }

  /** One request moves to another stage. */
  ghost predicate OnlyMoves(s: State, t: State, r: nat)
    requires r in s.requests
  {
    && t.asked == s.asked && t.requests.Keys == s.requests.Keys && SameSender(s.requests[r], t.requests[r])
    && forall x :: x in s.requests && x != r ==> t.requests[x] == s.requests[x]
  }

  /** Asking begins with the first peer and goes on with the one after the last asked. */
  predicate TurnMove(was: Stage, now: Stage) {
    match now
    case Asking(_, next, _) => next == 0 || now == was || (was.Asked? && now == NextPeer(was))
    case Asked(_, _, _, _) => now == was
    case _ => true
  }

  lemma StageMoves(s: State, e: Event, attempts: nat)
    requires !e.Publish? && !e.Evict? && !e.Arrive? && !e.Ask? && e.r in s.requests
    ensures OnlyMoves(s, RequestStep(s, e, attempts), e.r)
  {
    if e.Look? || e.Lock? || e.Retry? || e.Place? || e.Fail? {
      EarlyMoves(s, e, attempts);
    } else if e.TakeReply? || e.PeerFails? || e.GiveUpPeers? {
      PeerMoves(s, e, attempts);
    } else {
      LateMoves(s, e, attempts);
    }
  }

  lemma EarlyMoves(s: State, e: Event, attempts: nat)
    requires (e.Look? || e.Lock? || e.Retry? || e.Place? || e.Fail?) && e.r in s.requests
    ensures OnlyMoves(s, RequestStep(s, e, attempts), e.r)
  {
  }

  lemma PeerMoves(s: State, e: Event, attempts: nat)
    requires (e.TakeReply? || e.PeerFails? || e.GiveUpPeers?) && e.r in s.requests
    ensures OnlyMoves(s, RequestStep(s, e, attempts), e.r)
  {
  }

  lemma LateMoves(s: State, e: Event, attempts: nat)
    requires (e.ResolvePath? || e.Fetch? || e.Store? || e.Stream?) && e.r in s.requests
    ensures OnlyMoves(s, RequestStep(s, e, attempts), e.r)
  {
  }

  lemma StagesTakeTurns(s: State, e: Event, attempts: nat)
    requires !e.Publish? && !e.Evict? && !e.Arrive? && !e.Ask? && e.r in s.requests
    ensures e.r in RequestStep(s, e, attempts).requests
    ensures TurnMove(s.requests[e.r].stage, RequestStep(s, e, attempts).requests[e.r].stage)
  {
  }

  lemma MovesRemember(s: State, t: State, r: nat)
    requires r in s.requests && OnlyMoves(s, t, r)
    ensures Remembers(s, t)
  {
  }

  lemma AskRemembers(s: State, r: nat, child: nat, attempts: nat)
    requires Inv(s, attempts) && r in s.requests && s.requests[r].stage.Asking?
    ensures Remembers(s, AskStep(s, r, child))
  {
    var next := s.requests[r].stage.next;
    assert (r, next) in s.asked ==> next < MadeSoFar(s.requests[r], attempts);
  }

  lemma StillAsked(s: State, t: State, r: nat, peers: seq<EdgeId>, n: nat)
    requires Remembers(s, t) && r in s.requests && n <= |peers| && AskedUpTo(s, r, peers, n)
    ensures AskedUpTo(t, r, peers, n)
  {
    assert SameSender(s.requests[r], t.requests[r]);
    forall i | 0 <= i < n
      ensures AskedAt(t, r, peers, i)
    {
      assert AskedAt(s, r, peers, i);
      assert SameSender(s.requests[s.asked[(r, i)]], t.requests[s.asked[(r, i)]]);
    }
  }

  lemma AskInTurn(s: State, r: nat, child: nat)
    requires r in s.requests && s.requests[r].stage.Asking? && AskedInTurn(s, r) && Remembers(s, AskStep(s, r, child))
    ensures AskedInTurn(AskStep(s, r, child), r)
  {
    var a, t := s.requests[r].stage, AskStep(s, r, child);
    StillAsked(s, t, r, a.peers, a.next);
    if a.next < |a.peers| && child !in s.requests {
      assert AskedAt(t, r, a.peers, a.next);
    }
  }

  lemma MoveInTurn(s: State, t: State, r: nat)
    requires r in s.requests && AskedInTurn(s, r) && OnlyMoves(s, t, r)
    requires TurnMove(s.requests[r].stage, t.requests[r].stage)
    ensures AskedInTurn(t, r)
  {
    var was, now := s.requests[r].stage, t.requests[r].stage;
    MovesRemember(s, t, r);
    if was.Asked? {
      StillAsked(s, t, r, was.peers, was.next + 1);
    } else if was.Asking? {
      StillAsked(s, t, r, was.peers, was.next);
    }
  }

  lemma OthersInTurn(s: State, t: State, r: nat)
    requires Remembers(s, t) && r in s.requests && AskedInTurn(s, r) && t.requests[r].stage == s.requests[r].stage
    ensures AskedInTurn(t, r)
  {
    match s.requests[r].stage
    case Asking(peers, next, _) => StillAsked(s, t, r, peers, next);
    case Asked(peers, next, _, _) => StillAsked(s, t, r, peers, next + 1);
    case _ =>
  }

  lemma MoveKeepsTurns(s: State, e: Event, attempts: nat)
    requires AllAskedInTurn(s) && !e.Publish? && !e.Evict? && !e.Arrive? && !e.Ask? && e.r in s.requests
    ensures AllAskedInTurn(RequestStep(s, e, attempts))
  {
    var t := RequestStep(s, e, attempts);
    StageMoves(s, e, attempts);
    StagesTakeTurns(s, e, attempts);
    MovesRemember(s, t, e.r);
    MoveInTurn(s, t, e.r);
    forall r | r in t.requests && r != e.r
      ensures AskedInTurn(t, r)
    {
      OthersInTurn(s, t, r);
    }
  }

  lemma AskKeepsTurns(s: State, r: nat, child: nat, attempts: nat)
    requires Inv(s, attempts) && AllAskedInTurn(s) && r in s.requests && s.requests[r].stage.Asking?
    ensures AllAskedInTurn(AskStep(s, r, child))
  {
    var t := AskStep(s, r, child);
    AskRemembers(s, r, child, attempts);
    AskInTurn(s, r, child);
    forall x | x in t.requests && x != r
      ensures AskedInTurn(t, x)
    {
      if x in s.requests {
        OthersInTurn(s, t, x);
      }
    }
  }

  lemma OutsideKeepsTurns(s: State, e: Event, attempts: nat)
    requires AllAskedInTurn(s) && (e.Publish? || e.Evict? || e.Arrive?)
    ensures AllAskedInTurn(Step(s, e, attempts))
  {
    var t := Step(s, e, attempts);
    assert Remembers(s, t);
    forall r | r in t.requests
      ensures AskedInTurn(t, r)
    {
      if r in s.requests {
        OthersInTurn(s, t, r);
      }
    }
  }

  lemma {:induction false} TurnsKept(events: seq<Event>, attempts: nat)
    ensures AllAskedInTurn(Run(events, attempts))
  {
    if events != [] {
      var s, e := Run(events[..|events| - 1], attempts), events[|events| - 1];
      TurnsKept(events[..|events| - 1], attempts);
      RunKeeps(events[..|events| - 1], attempts);
      if e.Publish? || e.Evict? || e.Arrive? {
        OutsideKeepsTurns(s, e, attempts);
      } else if e.r in s.requests {
        if !e.Ask? {
          MoveKeepsTurns(s, e, attempts);
        } else if s.requests[e.r].stage.Asking? {
          AskKeepsTurns(s, e.r, e.child, attempts);
        }
      }
    }
  }

  /** In every run a request turns from its peers to the origin only after each of them has
      been sent a request for the version. */
  lemma OriginComesLast(events: seq<Event>, e: Event, attempts: nat, r: nat, peers: seq<EdgeId>)
    requires var s := Run(events, attempts);
             && r in s.requests && (s.requests[r].stage.Asking? || s.requests[r].stage.Asked?)
             && s.requests[r].stage.peers == peers && Step(s, e, attempts).requests[r].stage.AtOrigin?
    ensures forall i :: 0 <= i < |peers| ==> AskedAt(Run(events, attempts), r, peers, i)
  {
    var s := Run(events, attempts);
    TurnsKept(events, attempts);
    assert AskedInTurn(s, r);
    OnlyGivingUp(s, e, attempts, r);
  }

  lemma OnlyGivingUp(s: State, e: Event, attempts: nat, r: nat)
    requires r in s.requests && (s.requests[r].stage.Asking? || s.requests[r].stage.Asked?)
    requires r in Step(s, e, attempts).requests && Step(s, e, attempts).requests[r].stage.AtOrigin?
    ensures s.requests[r].stage.Asking? && s.requests[r].stage.next >= |s.requests[r].stage.peers|
  {
    if !e.Publish? && !e.Evict? && !e.Arrive? && !e.Ask? && e.r in s.requests {
      if e.r == r {
        GivesUp(s, e, attempts);
      } else {
        StageMoves(s, e, attempts);
      }
    }
  }

  lemma GivesUp(s: State, e: Event, attempts: nat)
    requires !e.Publish? && !e.Evict? && !e.Arrive? && !e.Ask? && e.r in s.requests
    requires s.requests[e.r].stage.Asking? || s.requests[e.r].stage.Asked?
    ensures e.r in RequestStep(s, e, attempts).requests
    ensures RequestStep(s, e, attempts).requests[e.r].stage.AtOrigin? ==>
              s.requests[e.r].stage.Asking? && s.requests[e.r].stage.next >= |s.requests[e.r].stage.peers|
  {
  }

  // ---- one fill, undisturbed ----

  /** What is cached is served at once, to clients and to peers. */
  lemma CachedIsServed(s: State, r: nat, attempts: nat)
    requires r in s.requests && s.requests[r].stage.Arrived? && s.requests[r].key in CacheOf(s, s.requests[r].edge)
    ensures var t := Step(s, Look(r), attempts);
            t.requests[r].stage == Served(CacheOf(s, s.requests[r].edge)[s.requests[r].key])
  {
  }

  /** A request that found the lock taken looks into the cache again, and without the entry
      streams the origin's object. */
  lemma WaiterAnswers(s: State, r: nat, attempts: nat)
    requires r in s.requests && s.requests[r].stage.Waiting?
    ensures var q := s.requests[r];
            var retried := Step(s, Retry(r), attempts);
            if q.key in CacheOf(s, q.edge) then retried.requests[r].stage == Served(CacheOf(s, q.edge)[q.key])
            else q.key in s.origin.versions && s.origin.versions[q.key] in s.origin.objects ==>
              Step(retried, Stream(r, true), attempts).requests[r].stage == Served(s.origin.objects[s.origin.versions[q.key]])
  {
  }

  /** The peers to ask are the placement's first replicas, as many as the attempts allow. */
  lemma PlacementIsFollowed(s: State, r: nat, replicas: seq<EdgeId>, attempts: nat)
    requires r in s.requests && s.requests[r].stage.Leading? && s.requests[r].key in s.origin.versions
    ensures var now := Step(s, Place(r, true, replicas), attempts).requests[r].stage;
            && now.Asking? && now.next == 0 && now.path == Some(s.origin.versions[s.requests[r].key])
            && |now.peers| == (if |replicas| < attempts then |replicas| else attempts)
            && forall j :: 0 <= j < |now.peers| ==> now.peers[j] == replicas[j]
  {
  }

  /** The next peer is asked and answers: what it has cached is taken, and without it the
      turn goes to the one after. */
  lemma PeerAnswers(s: State, r: nat, child: nat, attempts: nat)
    requires r in s.requests && s.requests[r].stage.Asking? && child !in s.requests
    requires s.requests[r].stage.next < |s.requests[r].stage.peers|
    ensures var q, a := s.requests[r], s.requests[r].stage;
            var held := CacheOf(s, a.peers[a.next]);
            var t := Step(Step(Step(s, Ask(r, child), attempts), Look(child), attempts), TakeReply(r), attempts);
            && r in t.requests && t.caches == s.caches && t.origin == s.origin && SameSender(q, t.requests[r])
            && t.requests[r].stage == if q.key in held then Filled(held[q.key], true)
                                      else Asking(a.peers, a.next + 1, a.path)
  {
    var s1 := Step(s, Ask(r, child), attempts);
    assert s1 == AskStep(s, r, child);
    var s2 := Step(s1, Look(child), attempts);
    assert s2 == At(s1, child, LookStage(s1.requests[child], CacheOf(s1, s1.requests[child].edge)));
  }

  /** A peer that does not answer is passed over. */
  lemma SilentPeerIsPassed(s: State, r: nat, attempts: nat)
    requires r in s.requests && s.requests[r].stage.Asked?
    ensures var a := s.requests[r].stage;
            Step(s, PeerFails(r), attempts).requests[r].stage == Asking(a.peers, a.next + 1, a.path)
  {
  }

  /** What has been taken is served, and cached if it came from a peer or is at most 100 MB. */
  lemma FilledIsServed(s: State, r: nat, attempts: nat)
    requires r in s.requests && s.requests[r].stage.Filled?
    ensures var q := s.requests[r];
            var t := Step(s, Store(r, true), attempts);
            && t.requests[r].stage == Served(q.stage.bytes)
            && CacheOf(t, q.edge) == if q.stage.caches then CacheOf(s, q.edge)[q.key := q.stage.bytes] else CacheOf(s, q.edge)
  {
  }

  /** With no peer left the origin's object is taken. */
  lemma OriginAnswers(s: State, r: nat, answered: bool, attempts: nat)
    requires Inv(s, attempts) && r in s.requests && s.requests[r].stage.Asking?
    requires s.requests[r].stage.next >= |s.requests[r].stage.peers| && s.requests[r].stage.path.Some?
    ensures var q := s.requests[r];
            var t := Step(Step(Step(s, GiveUpPeers(r), attempts), ResolvePath(r, answered), attempts), Fetch(r), attempts);
            && q.key in s.origin.versions && s.origin.versions[q.key] in s.origin.objects
            && var bytes := s.origin.objects[s.origin.versions[q.key]];
               t.requests[r].stage == Filled(bytes, |bytes| <= 104857600)
  {
    assert StageRight(s.origin, s.requests[r]);
  }
}
