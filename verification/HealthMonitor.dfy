/** The health monitor: a per-node automaton driven by scans that find a heartbeat
    key or miss it, and the whole system of memory, database, expiring heartbeat
    keys and emitted events. Times are in milliseconds. */
module HealthMonitor {
  import opened EdgeNodes
  import opened Sequences

  const HEARTBEAT_TTL := 15000
  const SCAN_INTERVAL := 5000

  datatype Change = Change(oldStatus: EdgeNodeStatus, newStatus: EdgeNodeStatus)

  // ---- one node ----

  /** One scan of one node. */
  function Watch(rec: EdgeNodeRecord, alive: bool): EdgeNodeRecord {
    if alive then
      if rec.status != HEALTHY then rec.(status := HEALTHY, missedCycles := 0) else rec
    else
      var missed := rec.missedCycles + 1;
      if missed >= 3 && rec.status != DOWN then rec.(status := DOWN, missedCycles := missed)
      else if missed >= 1 && rec.status == HEALTHY then rec.(status := DEGRADED, missedCycles := missed)
      else rec.(missedCycles := missed)
  }

  /** The event a scan emits: one for each change of status. */
  function Emits(rec: EdgeNodeRecord, alive: bool): seq<Change> {
    if Watch(rec, alive).status != rec.status then [Change(rec.status, Watch(rec, alive).status)] else []
  }

  datatype View = View(rec: EdgeNodeRecord, log: seq<Change>)

  /** A node after a sequence of scans, `true` where its heartbeat key was found. */
  function Observe(v: View, scans: seq<bool>): View {
    if scans == [] then v
    else
      var before := Observe(v, scans[..|scans| - 1]);
      View(Watch(before.rec, scans[|scans| - 1]), before.log + Emits(before.rec, scans[|scans| - 1]))
  }

  function TrailingMisses(scans: seq<bool>): nat {
    if scans == [] || scans[|scans| - 1] then 0 else 1 + TrailingMisses(scans[..|scans| - 1])
  }

  function StatusAfterMisses(misses: nat): EdgeNodeStatus {
    if misses == 0 then HEALTHY else if misses < 3 then DEGRADED else DOWN
  }

  /** The outages: maximal runs of misses that reach three, counted where they do. */
  function Outages(scans: seq<bool>): nat {
    if scans == [] then 0
    else Outages(scans[..|scans| - 1]) + if TrailingMisses(scans) == 3 then 1 else 0
  }

  function Downs(log: seq<Change>): nat {
    if log == [] then 0
    else Downs(log[..|log| - 1]) + if log[|log| - 1].newStatus == DOWN then 1 else 0
  }

  lemma DownsAppend(log: seq<Change>, more: seq<Change>)
    requires |more| <= 1
    ensures Downs(log + more) == Downs(log) + if more != [] && more[0].newStatus == DOWN then 1 else 0
  {
    if more == [] {
      assert log + more == log;
    } else {
      assert (log + more)[..|log + more| - 1] == log;
    }
  }

  /** A healthy node has no missed cycles on its count. */
  predicate Calm(rec: EdgeNodeRecord) {
    rec.status == HEALTHY ==> rec.missedCycles == 0
  }

  /** A record that a run of misses has brought about. */
  predicate Follows(rec: EdgeNodeRecord, misses: nat) {
    rec.status == StatusAfterMisses(misses) && rec.missedCycles == misses
  }

  /** One scan lengthens or ends the run of misses, and emits DOWN on the third. */
  lemma WatchFollows(rec: EdgeNodeRecord, misses: nat, alive: bool, next: nat)
    requires Follows(rec, misses) && next == if alive then 0 else misses + 1
    ensures Follows(Watch(rec, alive), next)
    ensures Downs(Emits(rec, alive)) == if next == 3 then 1 else 0
  {
    var emitted := Emits(rec, alive);
    assert emitted != [] ==> emitted[..|emitted| - 1] == [];
  }

  lemma FirstFoundFollows(rec: EdgeNodeRecord)
    requires Calm(rec)
    ensures Follows(Watch(rec, true), 0) && Downs(Emits(rec, true)) == 0
  {
    var emitted := Emits(rec, true);
    assert emitted != [] ==> emitted[..|emitted| - 1] == [];
  }

  lemma OneDown(log: seq<Change>, more: seq<Change>)
    requires |more| <= 1
    ensures Downs(log + more) == Downs(log) + Downs(more)
  {
    DownsAppend(log, more);
    DownsAppend([], more);
    assert [] + more == more;
  }

  lemma {:induction false} ObservedFollows(v: View, scans: seq<bool>)
    requires Calm(v.rec) && (v.rec.status == HEALTHY || (scans != [] && scans[0]))
    ensures Follows(Observe(v, scans).rec, TrailingMisses(scans))
    ensures Downs(Observe(v, scans).log) == Downs(v.log) + Outages(scans)
  {
    if scans != [] {
      var front, last := scans[..|scans| - 1], scans[|scans| - 1];
      var before := Observe(v, front);
      OneDown(before.log, Emits(before.rec, last));
      if front != [] || v.rec.status == HEALTHY {
        ObservedFollows(v, front);
        WatchFollows(before.rec, TrailingMisses(front), last, TrailingMisses(scans));
      } else {
        FirstFoundFollows(v.rec);
      }
    }
  }

  lemma {:induction false} ObservedFrame(v: View, scans: seq<bool>)
    ensures Observe(v, scans).rec ==
            v.rec.(status := Observe(v, scans).rec.status, missedCycles := Observe(v, scans).rec.missedCycles)
  {
    if scans != [] {
      ObservedFrame(v, scans[..|scans| - 1]);
    }
  }

  /** The monitor in closed form, from a healthy node or from the first heartbeat
      found: status and counter depend on the current run of misses alone, and each
      outage emits exactly one DOWN. */
  lemma ObservedStatus(v: View, scans: seq<bool>)
    requires Calm(v.rec) && (v.rec.status == HEALTHY || (scans != [] && scans[0]))
    ensures Observe(v, scans).rec == v.rec.(status := StatusAfterMisses(TrailingMisses(scans)),
                                            missedCycles := TrailingMisses(scans))
    ensures Downs(Observe(v, scans).log) == Downs(v.log) + Outages(scans)
  {
    ObservedFollows(v, scans);
    ObservedFrame(v, scans);
  }

  /** Replaying a log of changes from a status; each change must start where the last ended. */
  function Replay(status: EdgeNodeStatus, log: seq<Change>): EdgeNodeStatus {
    if log == [] then status else log[|log| - 1].newStatus
  }

  predicate StartsWhereLastEnded(status: EdgeNodeStatus, log: seq<Change>, i: nat)
    requires i < |log|
  {
    log[i].oldStatus == Replay(status, log[..i]) && log[i].newStatus != log[i].oldStatus
  }

  ghost predicate Chained(status: EdgeNodeStatus, log: seq<Change>) {
    forall i: nat :: i < |log| ==> StartsWhereLastEnded(status, log, i)
  }

  lemma ChainExtends(status: EdgeNodeStatus, log: seq<Change>, more: seq<Change>)
    requires Chained(status, log) && |more| <= 1
    requires more != [] ==> more[0].oldStatus == Replay(status, log) && more[0].newStatus != more[0].oldStatus
    ensures Chained(status, log + more)
    ensures Replay(status, log + more) == if more == [] then Replay(status, log) else more[0].newStatus
  {
    var all := log + more;
    if more == [] {
      assert all == log;
      return;
    }
    forall i: nat | i < |all| ensures StartsWhereLastEnded(status, all, i) {
      assert all[..i] == log[..i];
      if i < |log| {
        assert StartsWhereLastEnded(status, log, i);
      } else {
        assert log[..i] == log;
      }
    }
  }

  /** The events emitted are exactly the changes of status: each starts where the
      one before ended, and replaying them gives the status held. */
  lemma {:induction false} LogReproducesStatus(start: EdgeNodeRecord, scans: seq<bool>)
    ensures var v := Observe(View(start, []), scans);
            Chained(start.status, v.log) && Replay(start.status, v.log) == v.rec.status
  {
    if scans != [] {
      LogReproducesStatus(start, scans[..|scans| - 1]);
      var before := Observe(View(start, []), scans[..|scans| - 1]);
      ChainExtends(start.status, before.log, Emits(before.rec, scans[|scans| - 1]));
    }
  }

  // ---- heartbeats that stop ----

  predicate AliveAt(lastHeartbeat: int, now: int) {
    now < lastHeartbeat + HEARTBEAT_TTL
  }

  /** What scans at `first`, `first + 5 s`, … find after the last heartbeat. */
  function Silence(lastHeartbeat: int, first: int, n: nat): (r: seq<bool>)
    ensures |r| == n
  {
    seq(n, i requires 0 <= i < n => AliveAt(lastHeartbeat, first + SCAN_INTERVAL * i))
  }

  function ScanTime(first: int, i: int): int {
    first + SCAN_INTERVAL * i
  }

  /** Failure detection: whatever state the node is in at its last heartbeat, the
      next three scans find it healthy, the fourth (before 20 s) ends that, and the
      sixth, and no other, emits DOWN, between 25 s and 30 s after the heartbeat. */
  lemma FailureDetection(v: View, lastHeartbeat: int, first: int, n: nat)
    requires Calm(v.rec) && lastHeartbeat <= first < lastHeartbeat + SCAN_INTERVAL && n >= 1
    ensures var now := Observe(v, Silence(lastHeartbeat, first, n));
            && now.rec.status == (if n <= 3 then HEALTHY else if n <= 5 then DEGRADED else DOWN)
            && Downs(now.log) == Downs(v.log) + (if n <= 5 then 0 else 1)
    ensures ScanTime(first, 3) < lastHeartbeat + 20000
    ensures lastHeartbeat + 25000 <= ScanTime(first, 5) < lastHeartbeat + 30000
  {
    SilenceMisses(lastHeartbeat, first, n);
    ObservedStatus(v, Silence(lastHeartbeat, first, n));
  }

  lemma {:induction false} SilenceMisses(lastHeartbeat: int, first: int, n: nat)
    requires lastHeartbeat <= first < lastHeartbeat + SCAN_INTERVAL
    ensures TrailingMisses(Silence(lastHeartbeat, first, n)) == if n <= 3 then 0 else n - 3
    ensures Outages(Silence(lastHeartbeat, first, n)) == if n <= 5 then 0 else 1
    ensures n >= 1 ==> Silence(lastHeartbeat, first, n)[0]
  {
    if n > 0 {
      SilenceMisses(lastHeartbeat, first, n - 1);
      var scans := Silence(lastHeartbeat, first, n);
      assert scans[..|scans| - 1] == Silence(lastHeartbeat, first, n - 1);
    }
  }

  // ---- the whole system ----

  datatype NodeRow = NodeRow(region: string, endpointUrl: string, status: EdgeNodeStatus)

  /** Memory, database, heartbeat keys with their expiry, and the events emitted for each node. */
  datatype System = System(nodeMap: map<NodeId, EdgeNodeRecord>, db: map<NodeId, NodeRow>,
                           heartbeats: map<NodeId, int>, logs: map<NodeId, seq<Change>>)

  datatype Event = Heartbeat(id: NodeId, at: int) | Scan(at: int) | Refresh(at: int)

  function LoadRow(id: NodeId, row: NodeRow, nodeMap: map<NodeId, EdgeNodeRecord>): EdgeNodeRecord {
    EdgeNodeRecord(id, row.region, row.endpointUrl, row.status, if id in nodeMap then nodeMap[id].missedCycles else 0)
  }

  /** `refreshNodeMap`: rebuilt from the database, keeping the counters. */
  function RefreshNodeMap(db: map<NodeId, NodeRow>, nodeMap: map<NodeId, EdgeNodeRecord>): map<NodeId, EdgeNodeRecord> {
    map id | id in db :: LoadRow(id, db[id], nodeMap)
  }

  /** The service as it starts on a database. */
  function Start(db: map<NodeId, NodeRow>): System {
    System(RefreshNodeMap(db, map[]), db, map[], map id | id in db :: [])
  }

  predicate KeyLive(heartbeats: map<NodeId, int>, id: NodeId, now: int) {
    id in heartbeats && now < heartbeats[id]
  }

  function ScanNode(s: System, id: NodeId, now: int): EdgeNodeRecord
    requires id in s.nodeMap
  {
    Watch(s.nodeMap[id], KeyLive(s.heartbeats, id, now))
  }

  /** `monitorEdgeHealth`: every node is watched; changes of status reach the database and the log. */
  function MonitorEdgeHealth(s: System, now: int): System {
    System(map id | id in s.nodeMap :: ScanNode(s, id, now),
           map id | id in s.db :: if id in s.nodeMap then WriteStatus(s.db[id], s.nodeMap[id], ScanNode(s, id, now)) else s.db[id],
           s.heartbeats,
           map id | id in s.logs :: if id in s.nodeMap then s.logs[id] + Emits(s.nodeMap[id], KeyLive(s.heartbeats, id, now)) else s.logs[id])
  }

  function WriteStatus(row: NodeRow, before: EdgeNodeRecord, after: EdgeNodeRecord): NodeRow {
    if after.status != before.status then row.(status := after.status) else row
  }

  function Apply(s: System, e: Event): System {
    match e
    case Heartbeat(id, at) => s.(heartbeats := s.heartbeats[id := at + HEARTBEAT_TTL])
    case Scan(at) => MonitorEdgeHealth(s, at)
    case Refresh(_) => s.(nodeMap := RefreshNodeMap(s.db, s.nodeMap))
  }

  function Run(db: map<NodeId, NodeRow>, es: seq<Event>): System {
    if es == [] then Start(db) else Apply(Run(db, es[..|es| - 1]), es[|es| - 1])
  }

  /** What the scans of a run found for one node. */
  function Found(db: map<NodeId, NodeRow>, es: seq<Event>, id: NodeId): seq<bool> {
    if es == [] then []
    else
      var before := es[..|es| - 1];
      if es[|es| - 1].Scan?
      then Found(db, before, id) + [KeyLive(Run(db, before).heartbeats, id, es[|es| - 1].at)]
      else Found(db, before, id)
  }

  /** Memory and database agree, and every node has a log. */
  ghost predicate Synced(s: System) {
    && s.nodeMap.Keys == s.db.Keys == s.logs.Keys
    && forall id :: id in s.db ==> s.nodeMap[id] == LoadRow(id, s.db[id], s.nodeMap)
  }

  lemma RefreshIsIdentity(s: System)
    requires Synced(s)
    ensures RefreshNodeMap(s.db, s.nodeMap) == s.nodeMap
  {
  }

  lemma ScanKeepsSynced(s: System, now: int)
    requires Synced(s)
    ensures Synced(MonitorEdgeHealth(s, now))
  {
  }

  lemma {:induction false} RunSynced(db: map<NodeId, NodeRow>, es: seq<Event>)
    ensures Synced(Run(db, es)) && Run(db, es).db.Keys == db.Keys
  {
    if es != [] {
      RunSynced(db, es[..|es| - 1]);
      var s := Run(db, es[..|es| - 1]);
      match es[|es| - 1]
      case Heartbeat(id, at) =>
      case Scan(at) => ScanKeepsSynced(s, at);
      case Refresh(_) => RefreshIsIdentity(s);
    }
  }

  /** `refreshNodeMap` is invisible wherever it runs: a run with one more of it, between
      any two events, ends in the same memory, database and events. */
  lemma {:induction false} RefreshChangesNothing(db: map<NodeId, NodeRow>, before: seq<Event>, at: int, after: seq<Event>)
    ensures Run(db, before + [Refresh(at)] + after) == Run(db, before + after)
  {
    if after == [] {
      var es := before + [Refresh(at)];
      assert es + after == es && before + after == before && es[..|es| - 1] == before;
      RunSynced(db, before);
      RefreshIsIdentity(Run(db, before));
    } else {
      var front, e := after[..|after| - 1], after[|after| - 1];
      RefreshChangesNothing(db, before, at, front);
      RunPush(db, before + [Refresh(at)] + front, e);
      RunPush(db, before + front, e);
      assert before + [Refresh(at)] + after == before + [Refresh(at)] + front + [e];
      assert before + after == before + front + [e];
    }
  }

  lemma RunPush(db: map<NodeId, NodeRow>, es: seq<Event>, e: Event)
    ensures Run(db, es + [e]) == Apply(Run(db, es), e)
  {
    assert (es + [e])[..|es + [e]| - 1] == es;
  }

  /** Every run of the whole system is, node by node, the automaton run on what the
      scans found; refreshing between scans changes nothing. */
  lemma {:induction false} RunProjects(db: map<NodeId, NodeRow>, es: seq<Event>, id: NodeId)
    requires id in db
    ensures id in Run(db, es).nodeMap && id in Run(db, es).logs && id in Run(db, es).db
    ensures View(Run(db, es).nodeMap[id], Run(db, es).logs[id])
            == Observe(View(LoadRow(id, db[id], map[]), []), Found(db, es, id))
    ensures Run(db, es).db[id].status == Run(db, es).nodeMap[id].status
  {
    RunSynced(db, es);
    if es != [] {
      var front, e := es[..|es| - 1], es[|es| - 1];
      var s := Run(db, front);
      RunProjects(db, front, id);
      RunSynced(db, front);
      if e.Scan? {
        var found := Found(db, front, id);
        var alive := KeyLive(s.heartbeats, id, e.at);
        assert (found + [alive])[..|found + [alive]| - 1] == found;
      } else if e.Refresh? {
        RefreshIsIdentity(s);
      }
    }
  }

  /** Folding the events emitted for a node gives its status in memory and in the
      database; the events chain, and DOWN was emitted once for each outage. */
  lemma EventsReproduceStatus(db: map<NodeId, NodeRow>, es: seq<Event>, id: NodeId)
    requires id in db
    ensures var s := Run(db, es);
            && id in s.nodeMap && id in s.logs && id in s.db
            && Chained(db[id].status, s.logs[id])
            && Replay(db[id].status, s.logs[id]) == s.nodeMap[id].status == s.db[id].status
            && (db[id].status == HEALTHY ==> Downs(s.logs[id]) == Outages(Found(db, es, id)))
  {
    RunProjects(db, es, id);
    var start := LoadRow(id, db[id], map[]);
    LogReproducesStatus(start, Found(db, es, id));
    if db[id].status == HEALTHY {
      ObservedStatus(View(start, []), Found(db, es, id));
    }
  }

  // ---- timing of whole runs ----

  ghost predicate InOrder(es: seq<Event>) {
    forall i, j :: 0 <= i < j < |es| ==> es[i].at <= es[j].at
  }

  predicate BeatAt(es: seq<Event>, i: nat, id: NodeId)
    requires i < |es|
  {
    es[i].Heartbeat? && es[i].id == id
  }

  ghost predicate NoneBetween(es: seq<Event>, id: NodeId, low: nat, high: nat)
    requires high <= |es|
  {
    forall i: nat :: low < i < high ==> !BeatAt(es, i, id)
  }

  /** Events `i` and `k` are heartbeats of the node, one after the other. */
  ghost predicate Consecutive(es: seq<Event>, id: NodeId, i: nat, k: nat)
    requires i < k < |es|
  {
    BeatAt(es, i, id) && BeatAt(es, k, id) && NoneBetween(es, id, i, k)
  }

  ghost predicate IsLastBeat(es: seq<Event>, id: NodeId, i: nat)
    requires i < |es|
  {
    BeatAt(es, i, id) && NoneBetween(es, id, i, |es|)
  }

  /** Heartbeats of the node one after the other come at most 15 s apart, and the run
      ends less than 15 s after the last one. */
  ghost predicate GapsWithinTtl(es: seq<Event>, id: NodeId) {
    && (forall i: nat, k: nat :: i < k < |es| && Consecutive(es, id, i, k) ==> es[k].at <= es[i].at + HEARTBEAT_TTL)
    && (forall i: nat :: i < |es| && IsLastBeat(es, id, i) ==> es[|es| - 1].at < es[i].at + HEARTBEAT_TTL)
  }

  /** A heartbeat due at the same instant as a scan comes first. */
  ghost predicate HeartbeatsFirst(es: seq<Event>, id: NodeId) {
    forall i: nat, k: nat :: i < k < |es| && es[i].Scan? && BeatAt(es, k, id) ==> es[i].at < es[k].at
  }

  ghost predicate BeatsBefore(es: seq<Event>, id: NodeId, j: nat)
    requires j <= |es|
  {
    exists i: nat :: i < j && BeatAt(es, i, id)
  }

  /** The node beats before it is first scanned. */
  ghost predicate BeatsFromTheStart(es: seq<Event>, id: NodeId) {
    forall j: nat :: j < |es| && es[j].Scan? ==> BeatsBefore(es, id, j)
  }

  lemma {:induction false} LastBeat(es: seq<Event>, id: NodeId, j: nat) returns (i: nat)
    requires j <= |es| && BeatsBefore(es, id, j)
    ensures i < j && BeatAt(es, i, id) && NoneBetween(es, id, i, j)
  {
    if BeatAt(es, j - 1, id) {
      i := j - 1;
    } else {
      var k: nat :| k < j && BeatAt(es, k, id);
      assert BeatsBefore(es, id, j - 1);
      i := LastBeat(es, id, j - 1);
    }
  }

  lemma {:induction false} NextBeat(es: seq<Event>, id: NodeId, i: nat, j: nat) returns (k: nat)
    requires i < j <= |es| && NoneBetween(es, id, i, j)
    ensures i < k <= |es| && j <= k && NoneBetween(es, id, i, k) && (k < |es| ==> BeatAt(es, k, id))
    decreases |es| - j
  {
    if j == |es| || BeatAt(es, j, id) {
      k := j;
    } else {
      k := NextBeat(es, id, i, j + 1);
    }
  }

  /** Every scan finds a heartbeat of the node less than 15 s old. */
  ghost predicate Beating(es: seq<Event>, id: NodeId) {
    forall j :: 0 <= j < |es| && es[j].Scan? ==>
      exists i :: 0 <= i < j && es[i] == Heartbeat(id, es[i].at) && AliveAt(es[i].at, es[j].at)
  }

  /** The heartbeat before a scan is less than 15 s old. */
  lemma FreshBeat(es: seq<Event>, id: NodeId, j: nat) returns (i: nat)
    requires InOrder(es) && GapsWithinTtl(es, id) && HeartbeatsFirst(es, id)
    requires j < |es| && es[j].Scan? && BeatsBefore(es, id, j)
    ensures i < j && BeatAt(es, i, id) && AliveAt(es[i].at, es[j].at)
  {
    i := LastBeat(es, id, j);
    var k := NextBeat(es, id, i, j);
    assert k != j;
    NextSoonEnough(es, id, i, j, k);
  }

  lemma NextSoonEnough(es: seq<Event>, id: NodeId, i: nat, j: nat, k: nat)
    requires InOrder(es) && GapsWithinTtl(es, id) && HeartbeatsFirst(es, id)
    requires i < j < k <= |es| && es[j].Scan? && BeatAt(es, i, id) && NoneBetween(es, id, i, k)
    requires k < |es| ==> BeatAt(es, k, id)
    ensures es[j].at < es[i].at + HEARTBEAT_TTL
  {
    if k < |es| {
      assert Consecutive(es, id, i, k);
    } else {
      assert IsLastBeat(es, id, i);
      InOrderTo(es, j);
    }
  }

  lemma InOrderTo(es: seq<Event>, j: nat)
    requires InOrder(es) && j < |es|
    ensures es[j].at <= es[|es| - 1].at
  {
  }

  /** Gaps of at most 15 s leave no scan without a live heartbeat. */
  lemma GapsKeepBeating(es: seq<Event>, id: NodeId)
    requires InOrder(es) && GapsWithinTtl(es, id) && HeartbeatsFirst(es, id) && BeatsFromTheStart(es, id)
    ensures Beating(es, id)
  {
    forall j | 0 <= j < |es| && es[j].Scan?
      ensures exists i :: 0 <= i < j && es[i] == Heartbeat(id, es[i].at) && AliveAt(es[i].at, es[j].at)
    {
      var i := FreshBeat(es, id, j);
      assert es[i] == Heartbeat(id, es[i].at);
    }
  }

  lemma {:induction false} KeyHoldsLatest(db: map<NodeId, NodeRow>, es: seq<Event>, id: NodeId, i: nat)
    requires InOrder(es) && i < |es| && es[i] == Heartbeat(id, es[i].at)
    ensures id in Run(db, es).heartbeats && Run(db, es).heartbeats[id] >= es[i].at + HEARTBEAT_TTL
  {
    var front := es[..|es| - 1];
    if i < |front| {
      KeyHoldsLatest(db, front, id, i);
      assert front[i] == es[i];
    }
  }

  /** A node whose heartbeats keep coming is found by every scan. */
  lemma {:induction false} BeatingIsFound(db: map<NodeId, NodeRow>, es: seq<Event>, id: NodeId)
    requires InOrder(es) && Beating(es, id)
    ensures forall k :: 0 <= k < |Found(db, es, id)| ==> Found(db, es, id)[k]
  {
    if es != [] {
      var front, e := es[..|es| - 1], es[|es| - 1];
      assert Beating(front, id) by {
        forall j | 0 <= j < |front| && front[j].Scan?
          ensures exists i :: 0 <= i < j && front[i] == Heartbeat(id, front[i].at) && AliveAt(front[i].at, front[j].at)
        {
          assert es[j] == front[j];
          var i :| 0 <= i < j && es[i] == Heartbeat(id, es[i].at) && AliveAt(es[i].at, es[j].at);
          assert front[i] == es[i];
        }
      }
      BeatingIsFound(db, front, id);
      if e.Scan? {
        var i :| 0 <= i < |es| - 1 && es[i] == Heartbeat(id, es[i].at) && AliveAt(es[i].at, e.at);
        assert front[i] == es[i];
        KeyHoldsLatest(db, front, id, i);
      }
    }
  }

  lemma {:induction false} AllFoundNoMisses(scans: seq<bool>)
    requires forall k :: 0 <= k < |scans| ==> scans[k]
    ensures TrailingMisses(scans) == 0 && Outages(scans) == 0
  {
    if scans != [] {
      AllFoundNoMisses(scans[..|scans| - 1]);
    }
  }

  /** No false alarm: a node that starts healthy and beats with gaps of at most 15 s is
      never marked missed, and no event is ever emitted about it. */
  lemma NoFalseAlarm(db: map<NodeId, NodeRow>, es: seq<Event>, id: NodeId)
    requires id in db && db[id].status == HEALTHY && InOrder(es)
    requires GapsWithinTtl(es, id) && HeartbeatsFirst(es, id) && BeatsFromTheStart(es, id)
    ensures id in Run(db, es).nodeMap && id in Run(db, es).logs
    ensures Run(db, es).nodeMap[id] == LoadRow(id, db[id], map[]) && Run(db, es).logs[id] == []
  {
    GapsKeepBeating(es, id);
    QuietIff(db, es, id);
  }

  /** Exactly: no event is ever emitted about a node that starts healthy if and only if
      every scan finds a heartbeat less than 15 s old. */
  lemma QuietIff(db: map<NodeId, NodeRow>, es: seq<Event>, id: NodeId)
    requires id in db && db[id].status == HEALTHY && InOrder(es)
    ensures id in Run(db, es).nodeMap && id in Run(db, es).logs
    ensures Run(db, es).logs[id] == [] <==> Beating(es, id)
    ensures Beating(es, id) ==> Run(db, es).nodeMap[id] == LoadRow(id, db[id], map[])
  {
    var start := View(LoadRow(id, db[id], map[]), []);
    RunProjects(db, es, id);
    if Beating(es, id) {
      BeatingIsFound(db, es, id);
      AlwaysFound(start, Found(db, es, id));
    }
    if Run(db, es).logs[id] == [] {
      SilentLogFound(start, Found(db, es, id));
      FoundIsBeating(db, es, id);
    }
  }

  lemma SilentFoundStep(v: View, found: bool)
    requires v.rec.status == HEALTHY && Emits(v.rec, found) == []
    ensures found && Watch(v.rec, found).status == HEALTHY
  {
  }

  /** From HEALTHY the first miss is an event, and events stay. */
  lemma {:induction false} SilentLogFound(v: View, scans: seq<bool>)
    requires v.rec.status == HEALTHY && v.log == [] && Observe(v, scans).log == []
    ensures Observe(v, scans).rec.status == HEALTHY
    ensures forall k :: 0 <= k < |scans| ==> scans[k]
  {
    if scans != [] {
      var front := scans[..|scans| - 1];
      SilentLogFound(v, front);
      assert scans == front + [scans[|scans| - 1]];
      SilentFoundStep(Observe(v, front), scans[|scans| - 1]);
    }
  }

  /** A live key was written by some heartbeat before. */
  lemma {:induction false} KeyHasBeat(db: map<NodeId, NodeRow>, es: seq<Event>, id: NodeId)
    requires id in Run(db, es).heartbeats
    ensures exists i :: 0 <= i < |es| && es[i] == Heartbeat(id, es[i].at) && Run(db, es).heartbeats[id] == es[i].at + HEARTBEAT_TTL
  {
    var front, e := es[..|es| - 1], es[|es| - 1];
    if e.Heartbeat? && e.id == id {
      assert es[|es| - 1] == Heartbeat(id, es[|es| - 1].at);
    } else {
      KeyHasBeat(db, front, id);
      var i :| 0 <= i < |front| && front[i] == Heartbeat(id, front[i].at) &&
               Run(db, front).heartbeats[id] == front[i].at + HEARTBEAT_TTL;
      assert es[i] == front[i];
    }
  }

  lemma {:induction false} FoundIsBeating(db: map<NodeId, NodeRow>, es: seq<Event>, id: NodeId)
    requires forall k :: 0 <= k < |Found(db, es, id)| ==> Found(db, es, id)[k]
    ensures Beating(es, id)
  {
    if es != [] {
      var front, e := es[..|es| - 1], es[|es| - 1];
      var found := Found(db, front, id);
      assert forall k :: 0 <= k < |found| ==> Found(db, es, id)[k] == found[k];
      FoundIsBeating(db, front, id);
      if e.Scan? {
        assert Found(db, es, id)[|found|];
        KeyHasBeat(db, front, id);
      }
      assert es == front + [e];
      BeatingPush(front, e, id);
    }
  }

  lemma BeatingPush(front: seq<Event>, e: Event, id: NodeId)
    requires Beating(front, id)
    requires e.Scan? ==> exists i :: 0 <= i < |front| && front[i] == Heartbeat(id, front[i].at) && AliveAt(front[i].at, e.at)
    ensures Beating(front + [e], id)
  {
    var es := front + [e];
    forall j | 0 <= j < |es| && es[j].Scan?
      ensures exists i :: 0 <= i < j && es[i] == Heartbeat(id, es[i].at) && AliveAt(es[i].at, es[j].at)
    {
      var i :| 0 <= i < j && i < |front| && front[i] == Heartbeat(id, front[i].at) && AliveAt(front[i].at, es[j].at);
      assert es[i] == front[i];
    }
  }

  /** Why the tie matters: a scan at the instant a heartbeat is due, but before it,
      degrades the node. */
  lemma TieDegrades(db: map<NodeId, NodeRow>, id: NodeId)
    requires id in db && db[id].status == HEALTHY
    ensures var es := [Heartbeat(id, 0), Scan(HEARTBEAT_TTL), Heartbeat(id, HEARTBEAT_TTL)];
            && InOrder(es) && GapsWithinTtl(es, id) && BeatsFromTheStart(es, id) && !HeartbeatsFirst(es, id)
            && id in Run(db, es).logs && Run(db, es).logs[id] != []
  {
    var es := [Heartbeat(id, 0), Scan(HEARTBEAT_TTL), Heartbeat(id, HEARTBEAT_TTL)];
    assert BeatAt(es, 0, id) && BeatAt(es, 2, id) && es[1].Scan?;
    assert !NoneBetween(es, id, 0, |es|);
    assert !AliveAt(es[0].at, es[1].at);
    QuietIff(db, es, id);
  }

  lemma {:induction false} AlwaysFound(v: View, scans: seq<bool>)
    requires v.rec.status == HEALTHY && forall k :: 0 <= k < |scans| ==> scans[k]
    ensures Observe(v, scans) == v
  {
    if scans != [] {
      AlwaysFound(v, scans[..|scans| - 1]);
      assert v.log + [] == v.log;
    }
  }

  function ScanTimes(es: seq<Event>): seq<int> {
    if es == [] then []
    else ScanTimes(es[..|es| - 1]) + if es[|es| - 1].Scan? then [es[|es| - 1].at] else []
  }

  /** The scans of `es` come every 5 s from `first`. */
  ghost predicate Regular(es: seq<Event>, first: int) {
    forall i :: 0 <= i < |ScanTimes(es)| ==> ScanTimes(es)[i] == ScanTime(first, i)
  }

  ghost predicate Silent(es: seq<Event>, id: NodeId) {
    forall i :: 0 <= i < |es| ==> !(es[i].Heartbeat? && es[i].id == id)
  }

  /** One event that is not a heartbeat of the node leaves its key alone. */
  lemma KeyStays(s: System, e: Event, id: NodeId)
    requires !(e.Heartbeat? && e.id == id) && id in s.heartbeats
    ensures id in Apply(s, e).heartbeats && Apply(s, e).heartbeats[id] == s.heartbeats[id]
  {
  }

  lemma FoundPush(db: map<NodeId, NodeRow>, es: seq<Event>, e: Event, id: NodeId)
    ensures Found(db, es + [e], id) ==
            Found(db, es, id) + if e.Scan? then [KeyLive(Run(db, es).heartbeats, id, e.at)] else []
  {
    assert (es + [e])[..|es + [e]| - 1] == es;
    assert Found(db, es, id) + [] == Found(db, es, id);
  }

  lemma ScanTimesPush(es: seq<Event>, e: Event)
    ensures ScanTimes(es + [e]) == ScanTimes(es) + if e.Scan? then [e.at] else []
  {
    assert (es + [e])[..|es + [e]| - 1] == es;
  }

  lemma RegularFront(front: seq<Event>, e: Event, first: int)
    requires Regular(front + [e], first)
    ensures Regular(front, first)
    ensures e.Scan? ==> e.at == ScanTime(first, |ScanTimes(front)|)
  {
    ScanTimesPush(front, e);
    var times := ScanTimes(front + [e]);
    assert forall i :: 0 <= i < |ScanTimes(front)| ==> ScanTimes(front)[i] == times[i];
    if e.Scan? {
      assert times[|ScanTimes(front)|] == e.at;
    }
  }

  lemma SilencePush(last: int, first: int, n: nat, at: int)
    requires at == ScanTime(first, n)
    ensures Silence(last, first, n + 1) == Silence(last, first, n) + [AliveAt(last, at)]
  {
  }

  /** The key as the node's last heartbeat left it. */
  ghost predicate KeyFrom(s: System, id: NodeId, last: int) {
    id in s.heartbeats && s.heartbeats[id] == last + HEARTBEAT_TTL
  }

  lemma {:induction false} KeyPersists(db: map<NodeId, NodeRow>, before: seq<Event>, quiet: seq<Event>, id: NodeId, last: int)
    requires KeyFrom(Run(db, before), id, last) && Silent(quiet, id)
    ensures KeyFrom(Run(db, before + quiet), id, last)
  {
    if quiet == [] {
      assert before + quiet == before;
    } else {
      var front, e := quiet[..|quiet| - 1], quiet[|quiet| - 1];
      assert before + quiet == before + front + [e];
      KeyPersists(db, before, front, id, last);
      RunPush(db, before + front, e);
      KeyStays(Run(db, before + front), e, id);
    }
  }

  /** While the node is silent the scans find what its last heartbeat implies. */
  lemma {:induction false} SilentFound(db: map<NodeId, NodeRow>, before: seq<Event>, quiet: seq<Event>, id: NodeId,
                                       last: int, first: int)
    requires KeyFrom(Run(db, before), id, last) && Silent(quiet, id) && Regular(quiet, first)
    ensures Found(db, before + quiet, id) == Found(db, before, id) + Silence(last, first, |ScanTimes(quiet)|)
  {
    var found := Found(db, before, id);
    if quiet == [] {
      assert before + quiet == before;
      assert Silence(last, first, |ScanTimes(quiet)|) == [];
    } else {
      var front, e := quiet[..|quiet| - 1], quiet[|quiet| - 1];
      assert quiet == front + [e];
      Reassociate(before, front, [e]);
      RegularFront(front, e, first);
      SilentFound(db, before, front, id, last, first);
      KeyPersists(db, before, front, id, last);
      SilentFoundPush(db, before + front, front, e, id, last, first, found);
    }
  }

  lemma SilentFoundPush(db: map<NodeId, NodeRow>, run: seq<Event>, front: seq<Event>, e: Event, id: NodeId,
                        last: int, first: int, found: seq<bool>)
    requires KeyFrom(Run(db, run), id, last) && (e.Scan? ==> e.at == ScanTime(first, |ScanTimes(front)|))
    requires Found(db, run, id) == found + Silence(last, first, |ScanTimes(front)|)
    ensures Found(db, run + [e], id) == found + Silence(last, first, |ScanTimes(front + [e])|)
  {
    FoundPush(db, run, e, id);
    ScanTimesPush(front, e);
    if e.Scan? {
      SilencePush(last, first, |ScanTimes(front)|, e.at);
      Reassociate(found, Silence(last, first, |ScanTimes(front)|), [AliveAt(last, e.at)]);
    }
  }

  /** Failure detection over whole runs: after a last heartbeat at `last`, with scans
      every 5 s, the node is out of the healthy set by the scan before `last + 20 s`
      and DOWN from exactly one scan between `last + 25 s` and `last + 30 s`, which
      is the only one to emit DOWN, whatever other nodes, heartbeats and refreshes do. */
  lemma SilenceIsDetected(db: map<NodeId, NodeRow>, before: seq<Event>, quiet: seq<Event>, id: NodeId, last: int, first: int)
    requires id in db && last <= first < last + SCAN_INTERVAL
    requires Silent(quiet, id) && Regular(quiet, first) && |ScanTimes(quiet)| >= 1
    ensures var run := before + [Heartbeat(id, last)];
            var s, t := Run(db, run), Run(db, run + quiet);
            var n := |ScanTimes(quiet)|;
            && id in s.logs && id in t.nodeMap && id in t.logs
            && t.nodeMap[id].status == (if n <= 3 then HEALTHY else if n <= 5 then DEGRADED else DOWN)
            && Downs(t.logs[id]) == Downs(s.logs[id]) + (if n <= 5 then 0 else 1)
    ensures ScanTime(first, 3) < last + 20000
    ensures last + 25000 <= ScanTime(first, 5) < last + 30000
  {
    var run := before + [Heartbeat(id, last)];
    assert run[..|run| - 1] == before;
    RunProjects(db, run, id);
    RunProjects(db, run + quiet, id);
    SilentFound(db, run, quiet, id, last, first);
    var v := Observe(View(LoadRow(id, db[id], map[]), []), Found(db, run, id));
    ObserveAppend(View(LoadRow(id, db[id], map[]), []), Found(db, run, id), Silence(last, first, |ScanTimes(quiet)|));
    ObserveCalm(View(LoadRow(id, db[id], map[]), []), Found(db, run, id));
    FailureDetection(v, last, first, |ScanTimes(quiet)|);
  }

  lemma {:induction false} ObserveCalm(v: View, scans: seq<bool>)
    requires Calm(v.rec)
    ensures Calm(Observe(v, scans).rec)
  {
    if scans != [] {
      ObserveCalm(v, scans[..|scans| - 1]);
    }
  }

  lemma {:induction false} ObserveAppend(v: View, a: seq<bool>, b: seq<bool>)
    ensures Observe(v, a + b) == Observe(Observe(v, a), b)
  {
    if b == [] {
      assert a + b == a;
    } else {
      ObserveAppend(v, a, b[..|b| - 1]);
      assert (a + b)[..|a + b| - 1] == a + b[..|b| - 1];
    }
  }

  /** In every run memory describes the nodes as the database does, and the database keeps
      everything about them but their status. */
  lemma {:induction false} RecordsDescribeRows(db: map<NodeId, NodeRow>, es: seq<Event>, id: NodeId)
    requires id in db
    ensures var s := Run(db, es);
            && id in s.db && s.db[id].region == db[id].region && s.db[id].endpointUrl == db[id].endpointUrl
            && id in s.nodeMap && s.nodeMap[id].id == id && s.nodeMap[id].status == s.db[id].status
            && s.nodeMap[id].region == db[id].region && s.nodeMap[id].endpointUrl == db[id].endpointUrl
  {
    RunSynced(db, es);
    if es != [] {
      RecordsDescribeRows(db, es[..|es| - 1], id);
      RunSynced(db, es[..|es| - 1]);
    }
  }
}
