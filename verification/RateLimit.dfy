/** The two fixed-window rate limiters. They differ in when a window ends (the core
    counts up to and including the expiry instant, the edge only before it), in
    whether a window's first request is checked against the limit, and in the
    edge's sweep of expired entries. Times are milliseconds. */
module RateLimit {
  import opened Options
  import opened Sequences

  datatype Window = Window(count: nat, expiresAt: int)

  datatype Guard = CoreGuard | EdgeGuard

  /** Limits belong to the route, so a key always comes with the same ones. */
  datatype Rule = Rule(limit: nat, ttl: nat)

  const SWEEP_THRESHOLD: nat := 5000

  predicate Counting(g: Guard, w: Window, now: int) {
    match g
    case CoreGuard => w.expiresAt >= now
    case EdgeGuard => w.expiresAt > now
  }

  /** The request finds no window that still counts, so it opens one. */
  predicate Opens(g: Guard, w: Option<Window>, now: int) {
    w.None? || !Counting(g, w.value, now)
  }

  /** The window of a key after a request. */
  function Hit(g: Guard, rule: Rule, w: Option<Window>, now: int): Window {
    if Opens(g, w, now) then Window(1, now + rule.ttl) else w.value.(count := w.value.count + 1)
  }

  /** Whether that request is let through: the edge never checks the one that opens a window. */
  predicate Admits(g: Guard, rule: Rule, w: Option<Window>, now: int) {
    (g.EdgeGuard? && Opens(g, w, now)) || Hit(g, rule, w, now).count <= rule.limit
  }

  // ---- runs over all keys ----

  datatype Request = Request(key: string, at: int)

  type Store = map<string, Window>

  function Find(store: Store, key: string): Option<Window> {
    if key in store then Some(store[key]) else None
  }

  function Unexpired(store: Store, now: int): Store {
    map k | k in store && store[k].expiresAt > now :: store[k]
  }

  /** The entry is written and, on the edge, a new window in a store that has grown
      past the threshold sweeps away every expired entry. */
  function StoreAfter(g: Guard, sweeps: bool, rule: Rule, store: Store, r: Request): Store {
    var w := Find(store, r.key);
    var written := store[r.key := Hit(g, rule, w, r.at)];
    if sweeps && Opens(g, w, r.at) && |written| > SWEEP_THRESHOLD then Unexpired(written, r.at) else written
  }

  datatype Outcome = Outcome(store: Store, admitted: seq<bool>)

  function Run(g: Guard, sweeps: bool, rules: string -> Rule, rs: seq<Request>): Outcome {
    if rs == [] then Outcome(map[], [])
    else
      var before := Run(g, sweeps, rules, rs[..|rs| - 1]);
      var r := rs[|rs| - 1];
      Outcome(StoreAfter(g, sweeps, rules(r.key), before.store, r),
              before.admitted + [Admits(g, rules(r.key), Find(before.store, r.key), r.at)])
  }

  lemma {:induction false} OneDecisionEach(g: Guard, sweeps: bool, rules: string -> Rule, rs: seq<Request>)
    ensures |Run(g, sweeps, rules, rs).admitted| == |rs|
  {
    if rs != [] {
      OneDecisionEach(g, sweeps, rules, rs[..|rs| - 1]);
    }
  }

  ghost predicate InOrder(rs: seq<Request>) {
    forall i, j :: 0 <= i < j < |rs| ==> rs[i].at <= rs[j].at
  }

  function LastTime(rs: seq<Request>): int
    requires rs != []
  {
    rs[|rs| - 1].at
  }

  // ---- the sweep changes no decision ----

  /** Two stores that differ only in entries expired at `now`. */
  ghost predicate SameLive(a: Store, b: Store, now: int) {
    forall k :: (k in a && a[k].expiresAt > now) || (k in b && b[k].expiresAt > now) ==>
      k in a && k in b && a[k] == b[k]
  }

  lemma SameLiveStep(swept: Store, kept: Store, rule: Rule, r: Request)
    requires SameLive(swept, kept, r.at)
    ensures Admits(EdgeGuard, rule, Find(swept, r.key), r.at) == Admits(EdgeGuard, rule, Find(kept, r.key), r.at)
    ensures SameLive(StoreAfter(EdgeGuard, true, rule, swept, r), StoreAfter(EdgeGuard, false, rule, kept, r), r.at)
  {
    assert Hit(EdgeGuard, rule, Find(swept, r.key), r.at) == Hit(EdgeGuard, rule, Find(kept, r.key), r.at);
  }

  /** The edge's sweep of a large store never changes a decision, then or later. */
  lemma {:induction false} SweepIsInvisible(rules: string -> Rule, rs: seq<Request>)
    requires InOrder(rs)
    ensures Run(EdgeGuard, true, rules, rs).admitted == Run(EdgeGuard, false, rules, rs).admitted
    ensures rs != [] ==> SameLive(Run(EdgeGuard, true, rules, rs).store, Run(EdgeGuard, false, rules, rs).store, LastTime(rs))
  {
    if rs != [] {
      var front, r := rs[..|rs| - 1], rs[|rs| - 1];
      SweepIsInvisible(rules, front);
      var swept, kept := Run(EdgeGuard, true, rules, front).store, Run(EdgeGuard, false, rules, front).store;
      assert SameLive(swept, kept, r.at) by {
        if front != [] {
          assert LastTime(front) <= r.at;
        }
      }
      SameLiveStep(swept, kept, rules(r.key), r);
    }
  }

  // ---- how many requests one interval can see ----

  predicate Within(at: int, start: int, length: nat) {
    start <= at <= start + length
  }

  /** The requests of `key` admitted at times in `[start, start + length]`. */
  function Count(rs: seq<Request>, admitted: seq<bool>, key: string, start: int, length: nat): nat
    requires |admitted| == |rs|
  {
    if rs == [] then 0
    else
      var n := |rs| - 1;
      Count(rs[..n], admitted[..n], key, start, length) +
      if rs[n].key == key && admitted[n] && Within(rs[n].at, start, length) then 1 else 0
  }

  /** How many requests one window admits. */
  function Cap(g: Guard, rule: Rule): nat {
    if g.EdgeGuard? && rule.limit == 0 then 1 else rule.limit
  }

  function Own(g: Guard, rule: Rule, win: Window): nat {
    if win.count < Cap(g, rule) then win.count else Cap(g, rule)
  }

  /** What an earlier window can have contributed: on the core its first request lies
      outside the interval; on the edge two whole windows can touch one interval. */
  function Share(g: Guard, rule: Rule): nat {
    match g
    case CoreGuard => if rule.limit == 0 then 0 else rule.limit - 1
    case EdgeGuard => Cap(g, rule)
  }

  /** What a window begun at `began` implies for the number `n` of requests admitted so
      far in `[start, start + ttl]`: fewer than its own if it began before the interval;
      its own alone, or one earlier window's share on top; and, once it began after the
      interval, the bound itself. */
  ghost predicate WindowTally(g: Guard, rule: Rule, win: Window, began: int, start: int, n: nat) {
    var own := Own(g, rule, win);
    && win.count >= 1
    && (began < start ==> n <= (if own == 0 then 0 else own - 1) && (n > 0 ==> Counting(g, win, start)))
    && (start <= began <= start + rule.ttl ==> n <= own || (began > start && n <= own + Share(g, rule)))
    && (began > start + rule.ttl ==> n <= Cap(g, rule) + Share(g, rule))
  }

  ghost predicate Tally(g: Guard, rule: Rule, w: Option<Window>, start: int, n: nat) {
    if w.None? then n == 0 else WindowTally(g, rule, w.value, w.value.expiresAt - rule.ttl, start, n)
  }

  /** One more request of the key keeps the tally. */
  lemma TallyStep(g: Guard, rule: Rule, w: Option<Window>, now: int, start: int, n: nat, counted: nat)
    requires rule.ttl > 0 && Tally(g, rule, w, start, n)
    requires BeganBy(rule, w, now)
    requires now < start ==> n == 0
    requires counted == n + if Admits(g, rule, w, now) && Within(now, start, rule.ttl) then 1 else 0
    ensures Tally(g, rule, Some(Hit(g, rule, w, now)), start, counted)
    ensures BeganBy(rule, Some(Hit(g, rule, w, now)), now)
    ensures now < start ==> counted == 0
  {
  }

  ghost predicate BeganBy(rule: Rule, w: Option<Window>, now: int) {
    w.Some? ==> w.value.expiresAt - rule.ttl <= now
  }

  /** What is known of one key, with window `w` and `n` requests admitted, after a run. */
  ghost predicate TalliedWith(g: Guard, rule: Rule, w: Option<Window>, n: nat, rs: seq<Request>, start: int) {
    && Tally(g, rule, w, start, n)
    && if rs == [] then n == 0 else BeganBy(rule, w, LastTime(rs)) && (LastTime(rs) < start ==> n == 0)
  }

  ghost function Seen(g: Guard, rules: string -> Rule, rs: seq<Request>, key: string, start: int): nat {
    OneDecisionEach(g, false, rules, rs);
    Count(rs, Run(g, false, rules, rs).admitted, key, start, rules(key).ttl)
  }

  /** After the run `rs` the key's window is `w` and `n` of its requests were admitted. */
  ghost predicate Leaves(g: Guard, rules: string -> Rule, rs: seq<Request>, key: string, start: int,
                         w: Option<Window>, n: nat)
  {
    Find(Run(g, false, rules, rs).store, key) == w && Seen(g, rules, rs, key, start) == n
  }

  /** One request of the key more. */
  lemma SeenStep(g: Guard, rules: string -> Rule, rs: seq<Request>, r: Request, start: int, w: Option<Window>, n: nat, m: nat)
    requires Leaves(g, rules, rs, r.key, start, w, n)
    requires m == n + if Admits(g, rules(r.key), w, r.at) && Within(r.at, start, rules(r.key).ttl) then 1 else 0
    ensures Leaves(g, rules, rs + [r], r.key, start, Some(Hit(g, rules(r.key), w, r.at)), m)
  {
    var more := rs + [r];
    OneDecisionEach(g, false, rules, rs);
    OneDecisionEach(g, false, rules, more);
    assert more[..|more| - 1] == rs;
    assert Run(g, false, rules, more).admitted[..|rs|] == Run(g, false, rules, rs).admitted;
  }

  /** A request of another key leaves the key as it was. */
  lemma OtherKeyStep(g: Guard, rules: string -> Rule, rs: seq<Request>, r: Request, key: string, start: int,
                     w: Option<Window>, n: nat)
    requires r.key != key && Leaves(g, rules, rs, key, start, w, n)
    ensures Leaves(g, rules, rs + [r], key, start, w, n)
  {
    var more := rs + [r];
    OneDecisionEach(g, false, rules, rs);
    OneDecisionEach(g, false, rules, more);
    assert more[..|more| - 1] == rs;
    assert Run(g, false, rules, more).admitted[..|rs|] == Run(g, false, rules, rs).admitted;
  }

  ghost predicate Tallied(g: Guard, rules: string -> Rule, rs: seq<Request>, key: string, start: int) {
    TalliedWith(g, rules(key), Find(Run(g, false, rules, rs).store, key), Seen(g, rules, rs, key, start), rs, start)
  }

  lemma TalliedStep(g: Guard, rule: Rule, w: Option<Window>, n: nat, front: seq<Request>, r: Request, start: int,
                    counted: nat, same: bool)
    requires rule.ttl > 0 && TalliedWith(g, rule, w, n, front, start)
    requires front != [] ==> LastTime(front) <= r.at
    requires counted == if same && Admits(g, rule, w, r.at) && Within(r.at, start, rule.ttl) then n + 1 else n
    requires front == [] ==> w.None?
    ensures TalliedWith(g, rule, if same then Some(Hit(g, rule, w, r.at)) else w, counted, front + [r], start)
  {
    if same {
      TallyStep(g, rule, w, r.at, start, n, counted);
    }
  }

  lemma {:induction false} TallyRun(g: Guard, rules: string -> Rule, rs: seq<Request>, key: string, start: int)
    requires InOrder(rs) && rules(key).ttl > 0
    ensures Tallied(g, rules, rs, key, start)
  {
    if rs != [] {
      var front, r := rs[..|rs| - 1], rs[|rs| - 1];
      TallyRun(g, rules, front, key, start);
      assert rs == front + [r];
      assert front != [] ==> LastTime(front) <= r.at;
      TallyOneMore(g, rules, front, r, key, start);
    }
  }

  lemma TallyOneMore(g: Guard, rules: string -> Rule, front: seq<Request>, r: Request, key: string, start: int)
    requires rules(key).ttl > 0 && Tallied(g, rules, front, key, start)
    requires front != [] ==> LastTime(front) <= r.at
    ensures Tallied(g, rules, front + [r], key, start)
  {
    var w, n := Find(Run(g, false, rules, front).store, key), Seen(g, rules, front, key, start);
    if r.key == key {
      var m := if Admits(g, rules(key), w, r.at) && Within(r.at, start, rules(key).ttl) then n + 1 else n;
      SeenStep(g, rules, front, r, start, w, n, m);
      TalliedStep(g, rules(key), w, n, front, r, start, m, true);
    } else {
      OtherKeyStep(g, rules, front, r, key, start, w, n);
      TalliedStep(g, rules(key), w, n, front, r, start, n, false);
    }
  }

  function Bound(g: Guard, rule: Rule): nat {
    match g
    case CoreGuard => if rule.limit == 0 then 0 else 2 * rule.limit - 1
    case EdgeGuard => 2 * Cap(g, rule)
  }

  lemma TallyBounds(g: Guard, rule: Rule, w: Option<Window>, start: int, n: nat)
    requires Tally(g, rule, w, start, n)
    ensures n <= Bound(g, rule)
  {
  }

  /** In any interval of one TTL, whatever the other keys do, a key has at most
      `2·limit − 1` requests admitted by the core and `2·limit` by the edge (where a
      limit of 0 still admits the first request of each window). */
  lemma RateIsBounded(g: Guard, rules: string -> Rule, rs: seq<Request>, key: string, start: int)
    requires InOrder(rs) && rules(key).ttl > 0
    ensures |Run(g, g.EdgeGuard?, rules, rs).admitted| == |rs|
    ensures Count(rs, Run(g, g.EdgeGuard?, rules, rs).admitted, key, start, rules(key).ttl) <= Bound(g, rules(key))
  {
    TallyRun(g, rules, rs, key, start);
    OneDecisionEach(g, false, rules, rs);
    TallyBounds(g, rules(key), Find(Run(g, false, rules, rs).store, key), start, Seen(g, rules, rs, key, start));
    if g.EdgeGuard? {
      SweepIsInvisible(rules, rs);
    }
  }

  // ---- the bound is reached ----

  function Burst(key: string, at: int, n: nat): seq<Request> {
    if n == 0 then [] else Burst(key, at, n - 1) + [Request(key, at)]
  }

  lemma OneMoreHit(g: Guard, rule: Rule, w: Window, full: Window, at: int)
    requires Counting(g, w, at) && full == w.(count := w.count + 1) && full.count <= rule.limit
    ensures Hit(g, rule, Some(w), at) == full && Admits(g, rule, Some(w), at)
  {
  }

  /** A burst that stays within its window's limit is admitted whole. */
  lemma {:induction false} BurstIsAdmitted(g: Guard, rules: string -> Rule, rs: seq<Request>, key: string, at: int,
                                           n: nat, start: int, w: Window, seen: nat, full: Window, total: nat)
    requires Leaves(g, rules, rs, key, start, Some(w), seen)
    requires Counting(g, w, at) && Within(at, start, rules(key).ttl)
    requires n == 0 || w.count + n <= rules(key).limit
    requires full == Window(w.count + n, w.expiresAt) && total == seen + n
    ensures Leaves(g, rules, rs + Burst(key, at, n), key, start, Some(full), total)
  {
    if n == 0 {
      assert rs + Burst(key, at, n) == rs;
    } else {
      var most, fewer, last := Burst(key, at, n - 1), Window(full.count - 1, full.expiresAt), Request(key, at);
      BurstIsAdmitted(g, rules, rs, key, at, n - 1, start, w, seen, fewer, total - 1);
      Reassociate(rs, most, [last]);
      OneMoreHit(g, rules(key), fewer, full, at);
      SeenStep(g, rules, rs + most, last, start, Some(fewer), total - 1, total);
    }
  }

  /** A window opened at 0 whose remaining requests come at its last counting instant
      `late`, and the whole of the next window right after. */
  function Straddle(key: string, late: int, next: int, rest: nat): seq<Request> {
    ([Request(key, 0)] + Burst(key, late, rest)) + [Request(key, next)] + Burst(key, next, rest)
  }

  lemma {:induction false} BurstTimes(key: string, at: int, n: nat)
    ensures forall i :: 0 <= i < |Burst(key, at, n)| ==> Burst(key, at, n)[i].at == at
  {
    if n > 0 {
      BurstTimes(key, at, n - 1);
    }
  }

  lemma StraddleInOrder(key: string, late: int, next: int, rest: nat)
    requires 0 <= late <= next
    ensures InOrder(Straddle(key, late, next, rest))
  {
    BurstTimes(key, late, rest);
    BurstTimes(key, next, rest);
  }

  /** The bound is exact: some run has that many admitted within one TTL. */
  lemma BoundIsReached(g: Guard, rules: string -> Rule, key: string) returns (rs: seq<Request>, start: int)
    requires rules(key).ttl > 0
    ensures InOrder(rs) && |Run(g, g.EdgeGuard?, rules, rs).admitted| == |rs|
    ensures Count(rs, Run(g, g.EdgeGuard?, rules, rs).admitted, key, start, rules(key).ttl) == Bound(g, rules(key))
  {
    var rule := rules(key);
    var cap := Cap(g, rule);
    if cap == 0 {
      rs, start := [], 0;
    } else {
      var late, next := if g.CoreGuard? then rule.ttl else 0, if g.CoreGuard? then rule.ttl + 1 else rule.ttl;
      start, rs := late, Straddle(key, late, next, cap - 1);
      StraddleInOrder(key, late, next, cap - 1);
      StraddleSeen(g, rules, key, late, next, cap - 1, start);
      OneDecisionEach(g, false, rules, rs);
      if g.EdgeGuard? {
        SweepIsInvisible(rules, rs);
      }
    }
  }

  /** One request opens a window and a burst fills it. */
  lemma WindowFilled(g: Guard, rules: string -> Rule, rs: seq<Request>, key: string, opens: int, late: int, rest: nat,
                     start: int, w: Option<Window>, seen: nat, first: nat, total: nat, once: Window, full: Window)
    requires Leaves(g, rules, rs, key, start, w, seen)
    requires Opens(g, w, opens) && Admits(g, rules(key), w, opens) && once == Hit(g, rules(key), w, opens)
    requires first == seen + if Within(opens, start, rules(key).ttl) then 1 else 0
    requires rest == 0 || 1 + rest <= rules(key).limit
    requires Counting(g, once, late) && Within(late, start, rules(key).ttl)
    requires full == Window(1 + rest, once.expiresAt) && total == first + rest
    ensures Leaves(g, rules, rs + [Request(key, opens)] + Burst(key, late, rest), key, start, Some(full), total)
  {
    var r := Request(key, opens);
    SeenStep(g, rules, rs, r, start, w, seen, first);
    BurstIsAdmitted(g, rules, rs + [r], key, late, rest, start, once, first, full, total);
  }

  lemma StraddleSeen(g: Guard, rules: string -> Rule, key: string, late: int, next: int, rest: nat, start: int)
    requires rules(key).ttl > 0 && rest + 1 == Cap(g, rules(key))
    requires Counting(g, Window(1, rules(key).ttl), late) && !Counting(g, Window(1, rules(key).ttl), next)
    requires 0 <= late <= next <= late + rules(key).ttl && start == late
    requires g.EdgeGuard? <==> late == 0
    ensures Seen(g, rules, Straddle(key, late, next, rest), key, start) == Bound(g, rules(key))
  {
    var ttl := rules(key).ttl;
    var early := if late == 0 then 1 else 0;
    var most := early + rest;
    var one := most + 1;
    var spent := Window(1 + rest, ttl);
    WindowFilled(g, rules, [], key, 0, late, rest, start, None, 0, early, most, Window(1, ttl), spent);
    var whole := [] + [Request(key, 0)] + Burst(key, late, rest);
    assert whole == [Request(key, 0)] + Burst(key, late, rest);
    WindowFilled(g, rules, whole, key, next, next, rest, start, Some(spent), most, one, one + rest,
                 Window(1, next + ttl), Window(1 + rest, next + ttl));
  }

  // ---- the guards ----

  /** The core's guard when Redis is not ready. */
  class CoreRateLimitGuard {
    var memoryStore: Store

    constructor ()
      ensures memoryStore == map[]
    {
      memoryStore := map[];
    }

    method CheckMemory(key: string, ttlSeconds: nat, now: int) returns (count: nat)
      modifies this
      ensures var rule := Rule(0, ttlSeconds * 1000);
              && count == Hit(CoreGuard, rule, Find(old(memoryStore), key), now).count
              && memoryStore == StoreAfter(CoreGuard, false, rule, old(memoryStore), Request(key, now))
    {
      if key !in memoryStore || memoryStore[key].expiresAt < now {
        memoryStore := memoryStore[key := Window(1, now + ttlSeconds * 1000)];
        return 1;
      }
      var record := memoryStore[key];
      count := record.count + 1;
      memoryStore := memoryStore[key := record.(count := count)];
    }

    /** The store and the decision are one step of a run; a refused request counts too. */
    method CanActivate(limit: nat, ttlSeconds: nat, key: string, now: int) returns (allowed: bool)
      modifies this
      ensures var rule := Rule(limit, ttlSeconds * 1000);
              && allowed == Admits(CoreGuard, rule, Find(old(memoryStore), key), now)
              && memoryStore == StoreAfter(CoreGuard, false, rule, old(memoryStore), Request(key, now))
    {
      var currentCount := CheckMemory(key, ttlSeconds, now);
      allowed := currentCount <= limit;
    }
  }

  class EdgeRateLimitGuard {
    var memoryStore: Store

    constructor ()
      ensures memoryStore == map[]
    {
      memoryStore := map[];
    }

    method CanActivate(limit: nat, ttlSeconds: nat, key: string, now: int) returns (allowed: bool)
      modifies this
      ensures var rule := Rule(limit, ttlSeconds * 1000);
              && allowed == Admits(EdgeGuard, rule, Find(old(memoryStore), key), now)
              && memoryStore == StoreAfter(EdgeGuard, true, rule, old(memoryStore), Request(key, now))
    {
      if key in memoryStore && memoryStore[key].expiresAt > now {
        var existing := memoryStore[key];
        memoryStore := memoryStore[key := existing.(count := existing.count + 1)];
        return memoryStore[key].count <= limit;
      }
      memoryStore := memoryStore[key := Window(1, now + ttlSeconds * 1000)];
      if |memoryStore| > SWEEP_THRESHOLD {
        DeleteExpired(now);
      }
      allowed := true;
    }

    method DeleteExpired(now: int)
      modifies this
      ensures memoryStore == Unexpired(old(memoryStore), now)
    {
      var rest := memoryStore.Keys;
      while rest != {}
        invariant rest <= memoryStore.Keys <= old(memoryStore).Keys
        invariant forall k :: k in memoryStore ==> memoryStore[k] == old(memoryStore)[k]
        invariant forall k :: k in old(memoryStore) && k !in rest ==>
                    (k in memoryStore <==> old(memoryStore)[k].expiresAt > now)
        decreases rest
      {
        var k :| k in rest;
        rest := rest - {k};
        if memoryStore[k].expiresAt <= now {
          memoryStore := memoryStore - {k};
        }
      }
    }
  }
}
