/** `getEdgeContent` as one run of its code, with the loop over the peers. What the
    network and the core answer are parameters. */
module EdgeContent {
  import opened CacheKeys
  import opened Cluster
  import opened Options
  import opened Totals

  datatype Placement = Placement(responsibleReplicas: seq<EdgeId>, storagePath: Option<Path>)

  datatype Reply = Content(bytes: Bytes) | Missing | BadGateway

  /** The metadata lookup of a request that streams without the lock. */
  datatype Lookup = Answered(path: Option<Path>) | Unanswered

  /** What peers answer: content, 404, or nothing (an error or a timeout). */
  type Answers = EdgeId -> Option<Reply>

  predicate Hit(answers: Answers, peer: EdgeId) {
    answers(peer).Some? && answers(peer).value.Content?
  }

  /** The placement's replica number `i` is among the first `attempts` and the first of
      them that answers with content. */
  ghost predicate FirstHit(answers: Answers, placement: Option<Placement>, attempts: nat, i: nat) {
    && placement.Some? && i < |placement.value.responsibleReplicas| && i < attempts
    && Hit(answers, placement.value.responsibleReplicas[i])
    && forall j :: 0 <= j < i ==> !Hit(answers, placement.value.responsibleReplicas[j])
  }

  /** None of the placement's first `attempts` replicas answers with content. */
  ghost predicate NoHit(answers: Answers, placement: Option<Placement>, attempts: nat) {
    placement.Some? ==>
      forall j :: 0 <= j < |placement.value.responsibleReplicas| && j < attempts ==>
        !Hit(answers, placement.value.responsibleReplicas[j])
  }

  /** What the first hit answers. */
  ghost predicate HitsWith(answers: Answers, placement: Option<Placement>, attempts: nat, bytes: Bytes) {
    exists i: nat :: FirstHit(answers, placement, attempts, i) &&
                     answers(placement.value.responsibleReplicas[i]) == Some(Content(bytes))
  }

  function PeersTried(placement: Option<Placement>, attempts: nat): seq<EdgeId> {
    if placement.None? then [] else Upto(placement.value.responsibleReplicas, attempts)
  }

  function PathFor(placement: Option<Placement>, metadata: Option<Path>): Option<Path> {
    if placement.Some? && placement.value.storagePath.Some? then placement.value.storagePath else metadata
  }

  /** What the edge is told is about that version's origin object. */
  ghost predicate Truthful(o: Origin, key: Key, path: Option<Path>, answers: Answers) {
    && (path.Some? ==> RightPath(o, key, path.value))
    && (forall p :: Hit(answers, p) ==> Right(o, key, answers(p).value.bytes))
  }

  ghost predicate RightOrNothing(o: Origin, key: Key, bytes: Option<Bytes>) {
    bytes.Some? ==> Right(o, key, bytes.value)
  }

  /** Where a fill's answer comes from, and what it leaves in the cache. */
  ghost predicate FillOutcome(key: Key, placement: Option<Placement>, metadata: Option<Path>, attempts: nat, answers: Answers,
                              objects: map<Path, Bytes>, before: Cache, reply: Reply, after: Cache)
  {
    var path := if placement.Some? && placement.value.storagePath.Some? then placement.value.storagePath else metadata;
    if !NoHit(answers, placement, attempts) then
      reply.Content? && HitsWith(answers, placement, attempts, reply.bytes) && after == before[key := reply.bytes]
    else if path.None? then reply == Missing && after == before
    else if path.value !in objects then reply == BadGateway && after == before
    else
      && reply == Content(objects[path.value])
      && after == if |reply.bytes| <= 104857600 then before[key := reply.bytes] else before
  }

  /** The answer of a request that does not hold the lock. */
  predicate StreamOutcome(retry: Option<Bytes>, lookup: Lookup, objects: map<Path, Bytes>, reply: Reply) {
    if retry.Some? then reply == Content(retry.value)
    else
      match lookup
      case Unanswered => reply == BadGateway
      case Answered(path) =>
        if path.None? then reply == Missing
        else if path.value in objects then reply == Content(objects[path.value])
        else reply == BadGateway
  }

  lemma FillIsTrue(o: Origin, key: Key, placement: Option<Placement>, metadata: Option<Path>, attempts: nat, answers: Answers,
                   before: Cache, reply: Reply, after: Cache)
    requires FillOutcome(key, placement, metadata, attempts, answers, o.objects, before, reply, after)
    requires Truthful(o, key, PathFor(placement, metadata), answers)
    ensures reply.Content? ==> Right(o, key, reply.bytes)
  {
    if !NoHit(answers, placement, attempts) {
      var i: nat :| FirstHit(answers, placement, attempts, i) &&
                    answers(placement.value.responsibleReplicas[i]) == Some(Content(reply.bytes));
      assert Hit(answers, placement.value.responsibleReplicas[i]);
    }
  }

  /** The peers tried are the first replicas of the placement, one by one, as many as the
      attempts allow. */
  lemma PeersTriedAreFirst(placement: Option<Placement>, attempts: nat)
    ensures var peers := PeersTried(placement, attempts);
            if placement.None? then peers == []
            else
              var replicas := placement.value.responsibleReplicas;
              && |peers| == (if |replicas| < attempts then |replicas| else attempts)
              && forall j :: 0 <= j < |peers| ==> peers[j] == replicas[j]
  {
  }

  lemma FirstIsOnly(answers: Answers, placement: Option<Placement>, attempts: nat, bytes: Bytes)
    requires HitsWith(answers, placement, attempts, bytes)
    ensures !NoHit(answers, placement, attempts)
  {
    var i: nat :| FirstHit(answers, placement, attempts, i) &&
                  answers(placement.value.responsibleReplicas[i]) == Some(Content(bytes));
    assert Hit(answers, placement.value.responsibleReplicas[i]);
  }

  class EdgeContentController {
    const peerMaxAttempts: nat
    var cache: Cache

    constructor (peerMaxAttempts: nat)
      ensures this.peerMaxAttempts == peerMaxAttempts && cache == map[]
    {
      this.peerMaxAttempts := peerMaxAttempts;
      cache := map[];
    }

    /** Peer mode: the local cache or 404, and nothing changes. */
    method GetPeerContent(key: Key) returns (reply: Reply)
      ensures reply == if key in cache then Content(cache[key]) else Missing
    {
      if key in cache {
        return Content(cache[key]);
      }
      reply := Missing;
    }

    /** Peers in order, at most the configured number, until one has the file. */
    method AskPeers(key: Key, placement: Option<Placement>, answers: Answers) returns (buffer: Option<Bytes>)
      modifies this
      ensures match buffer
              case Some(bytes) => HitsWith(answers, placement, peerMaxAttempts, bytes) && cache == old(cache)[key := bytes]
              case None => NoHit(answers, placement, peerMaxAttempts) && cache == old(cache)
    {
      var peers := PeersTried(placement, peerMaxAttempts);
      PeersTriedAreFirst(placement, peerMaxAttempts);
      var i := 0;
      while i < |peers|
        invariant 0 <= i <= |peers|
        invariant forall j :: 0 <= j < i ==> !Hit(answers, peers[j])
        invariant cache == old(cache)
      {
        var peerResponse := answers(peers[i]);
        if peerResponse.Some? && peerResponse.value.Content? {
          assert FirstHit(answers, placement, peerMaxAttempts, i);
          cache := cache[key := peerResponse.value.bytes];
          return Some(peerResponse.value.bytes);
        }
        i := i + 1;
      }
      buffer := None;
    }

    /** The origin, with the path the placement or the metadata names; large objects are
        served without being cached. */
    method FetchFromOrigin(key: Key, storagePath: Option<Path>, objects: map<Path, Bytes>) returns (reply: Reply)
      modifies this
      ensures match reply
              case Content(bytes) =>
                && storagePath.Some? && storagePath.value in objects && bytes == objects[storagePath.value]
                && cache == if |bytes| <= 104857600 then old(cache)[key := bytes] else old(cache)
              case Missing => storagePath.None? && cache == old(cache)
              case BadGateway => storagePath.Some? && storagePath.value !in objects && cache == old(cache)
    {
      if storagePath.None? {
        return Missing;
      }
      if storagePath.value !in objects {
        return BadGateway;
      }
      var fullBuffer := objects[storagePath.value];
      if |fullBuffer| <= CACHEABLE {
        cache := cache[key := fullBuffer];
      }
      reply := Content(fullBuffer);
    }

    /** Without the lock: the cache once more, then a plain stream. */
    method StreamDirect(retry: Option<Bytes>, lookup: Lookup, objects: map<Path, Bytes>) returns (reply: Reply)
      ensures StreamOutcome(retry, lookup, objects, reply)
    {
      if retry.Some? {
        return Content(retry.value);
      }
      if lookup.Unanswered? {
        return BadGateway;
      }
      if lookup.path.None? {
        return Missing;
      }
      if lookup.path.value !in objects {
        return BadGateway;
      }
      reply := Content(objects[lookup.path.value]);
    }

    /** The cache; or, as the lock's holder, the first peer that has the file, and the
        origin only when none of those tried has it. Told nothing but the truth, the edge
        answers nothing else. */
    method GetEdgeContent(key: Key, lockAcquired: bool, retry: Option<Bytes>, lookup: Lookup,
                          placement: Option<Placement>, metadata: Option<Path>, answers: Answers,
                          objects: map<Path, Bytes>, ghost o: Origin)
      returns (reply: Reply)
      requires o.objects == objects
      modifies this
      ensures key in old(cache) ==> reply == Content(old(cache)[key])
      ensures key in old(cache) || !lockAcquired ==> cache == old(cache)
      ensures key !in old(cache) && !lockAcquired ==> StreamOutcome(retry, lookup, objects, reply)
      ensures key !in old(cache) && lockAcquired ==>
                FillOutcome(key, placement, metadata, peerMaxAttempts, answers, objects,
                            old(cache), reply, cache)
      ensures CacheRight(o, old(cache)) && RightOrNothing(o, key, retry) &&
              Truthful(o, key, PathFor(placement, metadata), answers) &&
              (lookup.Answered? ==> Truthful(o, key, lookup.path, answers)) ==>
                reply.Content? ==> Right(o, key, reply.bytes)
    {
      if key in cache {
        return Content(cache[key]);
      }
      if !lockAcquired {
        reply := StreamDirect(retry, lookup, objects);
        return;
      }
      reply := Fill(key, placement, metadata, answers, objects);
      if Truthful(o, key, PathFor(placement, metadata), answers) {
        FillIsTrue(o, key, placement, metadata, peerMaxAttempts, answers,
                   old(cache), reply, cache);
      }
    }

    method Fill(key: Key, placement: Option<Placement>, metadata: Option<Path>, answers: Answers, objects: map<Path, Bytes>)
      returns (reply: Reply)
      modifies this
      ensures FillOutcome(key, placement, metadata, peerMaxAttempts, answers, objects,
                          old(cache), reply, cache)
    {
      var buffer := AskPeers(key, placement, answers);
      if buffer.Some? {
        FirstIsOnly(answers, placement, peerMaxAttempts, buffer.value);
        return Content(buffer.value);
      }
      reply := FetchFromOrigin(key, PathFor(placement, metadata), objects);
    }
  }
}
