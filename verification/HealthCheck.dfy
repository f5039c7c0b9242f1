/** `HealthCheckService` as an object: heartbeats set expiring keys, each scan walks
    the node map and updates records, rows and the event stream in place. */
module HealthCheck {
  import opened EdgeNodes
  import opened HealthMonitor

  datatype HealthChanged = HealthChanged(edgeId: NodeId, change: Change)

  /** The events about one node, in the order they were emitted. */
  function EventsFor(events: seq<HealthChanged>, id: NodeId): seq<Change> {
    if events == [] then []
    else
      EventsFor(events[..|events| - 1], id) +
      if events[|events| - 1].edgeId == id then [events[|events| - 1].change] else []
  }

  lemma EventsForPush(events: seq<HealthChanged>, e: HealthChanged, id: NodeId)
    ensures EventsFor(events + [e], id) == EventsFor(events, id) + if e.edgeId == id then [e.change] else []
  {
    assert (events + [e])[..|events + [e]| - 1] == events;
  }

  /** The scan, restricted to the nodes in `done`. */
  function MonitorSome(s: System, now: int, done: set<NodeId>): System {
    System(map id | id in s.nodeMap :: if id in done then ScanNode(s, id, now) else s.nodeMap[id],
           map id | id in s.db ::
             if id in done && id in s.nodeMap then WriteStatus(s.db[id], s.nodeMap[id], ScanNode(s, id, now)) else s.db[id],
           s.heartbeats,
           map id | id in s.logs ::
             if id in done && id in s.nodeMap then s.logs[id] + Emits(s.nodeMap[id], KeyLive(s.heartbeats, id, now)) else s.logs[id])
  }

  lemma MonitorOneMore(s: System, now: int, done: set<NodeId>, id: NodeId)
    requires id !in done && id in s.nodeMap
    ensures MonitorSome(MonitorSome(s, now, done), now, {id}) == MonitorSome(s, now, done + {id})
  {
  }

  lemma MonitorOne(s: System, now: int, id: NodeId)
    requires id in s.nodeMap && id in s.db && id in s.logs
    ensures var m := MonitorSome(s, now, {id});
            && m.nodeMap == s.nodeMap[id := ScanNode(s, id, now)]
            && m.db == s.db[id := WriteStatus(s.db[id], s.nodeMap[id], ScanNode(s, id, now))]
            && m.logs == s.logs[id := s.logs[id] + Emits(s.nodeMap[id], KeyLive(s.heartbeats, id, now))]
  {
  }

  /** The logs after some events about one node. */
  lemma LogsOfOne(events: seq<HealthChanged>, events': seq<HealthChanged>, ids: set<NodeId>, edgeId: NodeId, more: seq<Change>)
    requires edgeId in ids && |more| <= 1
    requires events' == if more == [] then events else events + [HealthChanged(edgeId, more[0])]
    ensures (map id | id in ids :: EventsFor(events', id))
            == (map id | id in ids :: EventsFor(events, id))[edgeId := EventsFor(events, edgeId) + more]
  {
    forall id | id in ids
      ensures EventsFor(events', id) == if id == edgeId then EventsFor(events, id) + more else EventsFor(events, id)
    {
      if more != [] {
        EventsForPush(events, HealthChanged(edgeId, more[0]), id);
        assert more == [more[0]];
      }
    }
  }

  lemma MonitorNone(s: System, now: int)
    ensures MonitorSome(s, now, {}) == s
  {
  }

  lemma MonitorAll(s: System, now: int)
    ensures MonitorSome(s, now, s.nodeMap.Keys) == MonitorEdgeHealth(s, now)
  {
  }

  class HealthCheckService {
    var nodeMap: map<NodeId, EdgeNodeRecord>
    var db: map<NodeId, NodeRow>
    var heartbeats: map<NodeId, int>
    var events: seq<HealthChanged>

    ghost function Model(): System
      reads this
    {
      System(nodeMap, db, heartbeats, map id | id in db :: EventsFor(events, id))
    }

    constructor (db: map<NodeId, NodeRow>)
      ensures Model() == Start(db)
    {
      this.db := db;
      nodeMap, heartbeats, events := HealthMonitor.RefreshNodeMap(db, map[]), map[], [];
    }

    method SendHeartbeat(edgeId: NodeId, now: int)
      modifies this
      ensures Model() == HealthMonitor.Apply(old(Model()), Heartbeat(edgeId, now))
    {
      heartbeats := heartbeats[edgeId := now + HEARTBEAT_TTL];
    }

    method RefreshNodeMap(now: int)
      modifies this
      ensures Model() == HealthMonitor.Apply(old(Model()), Refresh(now))
    {
      nodeMap := HealthMonitor.RefreshNodeMap(db, nodeMap);
    }

    /** `transitionStatus`: the record, the row and the event stream together. */
    method TransitionStatus(edgeId: NodeId, newStatus: EdgeNodeStatus)
      requires edgeId in nodeMap && edgeId in db
      modifies this
      ensures nodeMap == old(nodeMap)[edgeId := old(nodeMap)[edgeId].(status := newStatus)]
      ensures db == old(db)[edgeId := old(db)[edgeId].(status := newStatus)]
      ensures events == old(events) + [HealthChanged(edgeId, Change(old(nodeMap)[edgeId].status, newStatus))]
      ensures heartbeats == old(heartbeats)
    {
      var oldStatus := nodeMap[edgeId].status;
      nodeMap := nodeMap[edgeId := nodeMap[edgeId].(status := newStatus)];
      db := db[edgeId := db[edgeId].(status := newStatus)];
      events := events + [HealthChanged(edgeId, Change(oldStatus, newStatus))];
    }

    /** The body of the scan loop, for one node. */
    method CheckNode(edgeId: NodeId, now: int)
      requires edgeId in nodeMap && edgeId in db
      modifies this
      ensures nodeMap == old(nodeMap)[edgeId := Watch(old(nodeMap)[edgeId], KeyLive(old(heartbeats), edgeId, now))]
      ensures db == old(db)[edgeId := WriteStatus(old(db)[edgeId], old(nodeMap)[edgeId], nodeMap[edgeId])]
      ensures heartbeats == old(heartbeats)
      ensures var more := Emits(old(nodeMap)[edgeId], KeyLive(old(heartbeats), edgeId, now));
              events == if more == [] then old(events) else old(events) + [HealthChanged(edgeId, more[0])]
    {
      var heartbeat := edgeId in heartbeats && now < heartbeats[edgeId];
      if heartbeat {
        if nodeMap[edgeId].status != HEALTHY {
          TransitionStatus(edgeId, HEALTHY);
          nodeMap := nodeMap[edgeId := nodeMap[edgeId].(missedCycles := 0)];
        }
      } else {
        nodeMap := nodeMap[edgeId := nodeMap[edgeId].(missedCycles := nodeMap[edgeId].missedCycles + 1)];
        if nodeMap[edgeId].missedCycles >= 3 && nodeMap[edgeId].status != DOWN {
          TransitionStatus(edgeId, DOWN);
        } else if nodeMap[edgeId].missedCycles >= 1 && nodeMap[edgeId].status == HEALTHY {
          TransitionStatus(edgeId, DEGRADED);
        }
      }
    }

    method CheckOne(edgeId: NodeId, now: int)
      requires edgeId in nodeMap && edgeId in db
      modifies this
      ensures Model() == MonitorSome(old(Model()), now, {edgeId})
    {
      MonitorOne(Model(), now, edgeId);
      ghost var more := Emits(nodeMap[edgeId], KeyLive(heartbeats, edgeId, now));
      CheckNode(edgeId, now);
      LogsOfOne(old(events), events, db.Keys, edgeId, more);
    }

    /** One scan over the node map, in whatever order its entries come. */
    method MonitorEdgeHealth(now: int)
      requires Synced(Model())
      modifies this
      ensures Model() == HealthMonitor.MonitorEdgeHealth(old(Model()), now)
      ensures Synced(Model())
    {
      ScanKeepsSynced(Model(), now);
      MonitorAll(Model(), now);
      ScanNodes(now);
    }

    method ScanNodes(now: int)
      requires nodeMap.Keys == db.Keys
      modifies this
      ensures Model() == MonitorSome(old(Model()), now, old(nodeMap).Keys)
    {
      ghost var before := Model();
      MonitorNone(before, now);
      var pending := nodeMap.Keys;
      ghost var done: set<NodeId> := {};
      while pending != {}
        invariant pending <= before.nodeMap.Keys && done == before.nodeMap.Keys - pending
        invariant nodeMap.Keys == before.nodeMap.Keys == db.Keys
        invariant Model() == MonitorSome(before, now, done)
        decreases pending
      {
        var edgeId :| edgeId in pending;
        MonitorOneMore(before, now, done, edgeId);
        pending, done := pending - {edgeId}, done + {edgeId};
        CheckOne(edgeId, now);
      }
      assert done == before.nodeMap.Keys;
    }

    /** `getHealthyNodes`, in whatever order the map lists them. */
    method GetHealthyNodes() returns (nodes: seq<EdgeNodeRecord>)
      requires forall id :: id in nodeMap ==> nodeMap[id].id == id
      ensures forall n :: n in nodes <==> n.id in nodeMap && nodeMap[n.id] == n && n.status == HEALTHY
      ensures forall i, j :: 0 <= i < j < |nodes| ==> nodes[i].id != nodes[j].id
    {
      nodes := [];
      var pending := nodeMap.Keys;
      while pending != {}
        invariant pending <= nodeMap.Keys
        invariant forall n :: n in nodes <==> n.id in nodeMap && n.id !in pending && nodeMap[n.id] == n && n.status == HEALTHY
        invariant forall i, j :: 0 <= i < j < |nodes| ==> nodes[i].id != nodes[j].id
        decreases pending
      {
        var id :| id in pending;
        pending := pending - {id};
        if nodeMap[id].status == HEALTHY {
          assert forall i :: 0 <= i < |nodes| ==> nodes[i] in nodes;
          nodes := nodes + [nodeMap[id]];
        }
      }
    }
  }
}
