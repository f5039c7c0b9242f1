/** The stampede lock: a Redis key set with NX and a 10 s lease, deleted only by
    the value that set it, and the follower that polls with a growing delay.
    Times are milliseconds as reals, because the delays are not whole. */
module StampedeLock {
  import opened Options

  const LEASE := 10000.0
  const MAX_WAIT := 11000.0
  const FIRST_DELAY := 100.0
  const MAX_DELAY := 1000.0

  datatype Lease = Lease(owner: string, acquiredAt: real)

  /** `Acquire` is an attempt, which may be refused. */
  datatype Event = Acquire(id: string, at: real) | Release(id: string, at: real)

  predicate Live(lock: Option<Lease>, now: real) {
    lock.Some? && now < lock.value.acquiredAt + LEASE
  }

  function Step(lock: Option<Lease>, e: Event): Option<Lease> {
    match e
    case Acquire(id, at) => if Live(lock, at) then lock else Some(Lease(id, at))
    case Release(id, at) => if Live(lock, at) && lock.value.owner == id then None else lock
  }

  predicate Granted(lock: Option<Lease>, e: Event) {
    e.Acquire? && !Live(lock, e.at)
  }

  /** An attempt succeeds exactly when there is no lock or its grant is 10 s old, and a
      successful one holds the key. */
  lemma GrantedIff(lock: Option<Lease>, id: string, at: real)
    ensures Granted(lock, Acquire(id, at)) <==> lock.None? || at >= lock.value.acquiredAt + 10000.0
    ensures Granted(lock, Acquire(id, at)) ==> Step(lock, Acquire(id, at)) == Some(Lease(id, at))
  {
  }

  /** The holder's release frees the lock, and nobody else's does. */
  lemma ReleaseFreesIff(lock: Option<Lease>, id: string, at: real)
    requires lock.Some? && at < lock.value.acquiredAt + 10000.0
    ensures Step(lock, Release(id, at)) == if lock.value.owner == id then None else lock
  {
  }

  // ---- who believes it holds the lock ----

  /** The key, and for each value granted and not yet released the time of its grant. */
  datatype State = State(lock: Option<Lease>, holders: map<string, real>)

  function Apply(s: State, e: Event): State {
    State(Step(s.lock, e),
          match e
          case Acquire(id, at) => if Granted(s.lock, e) then s.holders[id := at] else s.holders
          case Release(id, at) => s.holders - {id})
  }

  function Run(es: seq<Event>): State {
    if es == [] then State(None, map[]) else Apply(Run(es[..|es| - 1]), es[|es| - 1])
  }

  ghost predicate InOrder(es: seq<Event>) {
    forall i, j :: 0 <= i < j < |es| ==> es[i].at <= es[j].at
  }

  /** Its grant is less than 10 s old. */
  predicate Unexpired(s: State, id: string, now: real) {
    id in s.holders && now < s.holders[id] + 10000.0
  }

  ghost predicate Exclusive(s: State, now: real) {
    && (forall id :: Unexpired(s, id, now) ==> s.lock == Some(Lease(id, s.holders[id])))
    && (Live(s.lock, now) ==> s.lock.value.owner in s.holders && s.holders[s.lock.value.owner] == s.lock.value.acquiredAt)
  }

  lemma StepKeepsExclusive(s: State, e: Event)
    requires Exclusive(s, e.at)
    ensures Exclusive(Apply(s, e), e.at)
  {
    var s' := Apply(s, e);
    forall id | Unexpired(s', id, e.at) ensures s'.lock == Some(Lease(id, s'.holders[id])) {
      assert id in s.holders && s'.holders[id] == s.holders[id] ==> Unexpired(s, id, e.at);
    }
  }

  lemma LaterStillExclusive(s: State, now: real, later: real)
    requires Exclusive(s, now) && now <= later
    ensures Exclusive(s, later)
  {
    forall id | Unexpired(s, id, later) ensures s.lock == Some(Lease(id, s.holders[id])) {
      assert Unexpired(s, id, now);
    }
  }

  lemma {:induction false} RunExclusive(es: seq<Event>, now: real)
    requires InOrder(es) && (es != [] ==> es[|es| - 1].at <= now)
    ensures Exclusive(Run(es), now)
  {
    if es != [] {
      var e := es[|es| - 1];
      RunExclusive(es[..|es| - 1], e.at);
      StepKeepsExclusive(Run(es[..|es| - 1]), e);
      LaterStillExclusive(Run(es), e.at, now);
    }
  }

  /** At most one requester holds an unexpired lease, at any time after any run. */
  lemma AtMostOneLease(es: seq<Event>, now: real, a: string, b: string)
    requires InOrder(es) && (es != [] ==> es[|es| - 1].at <= now)
    requires Unexpired(Run(es), a, now) && Unexpired(Run(es), b, now)
    ensures a == b && Run(es).lock == Some(Lease(a, Run(es).holders[a]))
  {
    RunExclusive(es, now);
  }

  /** A leader whose lease has lapsed cannot remove its successor's lock. */
  lemma LapsedReleaseKeepsSuccessor(es: seq<Event>, id: string, at: real)
    requires InOrder(es) && (es != [] ==> es[|es| - 1].at <= at)
    requires id in Run(es).holders && !Unexpired(Run(es), id, at)
    ensures Run(es + [Release(id, at)]).lock == Run(es).lock
    ensures Live(Run(es).lock, at) ==> Run(es).lock.value.owner != id
  {
    RunExclusive(es, at);
    assert (es + [Release(id, at)])[..|es + [Release(id, at)]| - 1] == es;
  }

  // ---- the lock as seen at an instant ----

  /** The lock after the events up to `t`. */
  function After(es: seq<Event>, t: real): Option<Lease> {
    if es == [] then None
    else
      var before := After(es[..|es| - 1], t);
      if es[|es| - 1].at <= t then Step(before, es[|es| - 1]) else before
  }

  /** What `GET` on the lock key returns at `t`. */
  function LockAt(es: seq<Event>, t: real): Option<Lease> {
    if Live(After(es, t), t) then After(es, t) else None
  }

  lemma {:induction false} AfterEverything(es: seq<Event>, t: real)
    requires forall i :: 0 <= i < |es| ==> es[i].at <= t
    ensures After(es, t) == Run(es).lock
  {
    if es != [] {
      AfterEverything(es[..|es| - 1], t);
    }
  }

  /** Attempt number `i` was the one that took lease `l`. */
  ghost predicate GrantsAt(es: seq<Event>, i: int, l: Lease) {
    0 <= i < |es| && es[i] == Acquire(l.owner, l.acquiredAt) && Granted(Run(es[..i]).lock, es[i])
  }

  /** A lease in force was taken by a successful attempt made no later than now. */
  lemma {:induction false} LeaseHasGrant(es: seq<Event>, t: real, l: Lease)
    requires InOrder(es) && After(es, t) == Some(l)
    ensures l.acquiredAt <= t && exists i :: GrantsAt(es, i, l)
  {
    var front, last := es[..|es| - 1], es[|es| - 1];
    if After(front, t) == Some(l) {
      LeaseHasGrant(front, t, l);
      var i :| GrantsAt(front, i, l);
      assert es[..i] == front[..i];
      assert GrantsAt(es, i, l);
    } else {
      AfterEverything(front, t);
      assert GrantsAt(es, |es| - 1, l);
    }
  }

  function NextDelay(delay: real): real {
    if delay * 1.5 < MAX_DELAY then delay * 1.5 else MAX_DELAY
  }

  /** How long the wait has lasted after so many pauses, and the next one: 100 ms growing by
      half to 1 s. */
  predicate OnSchedule(pauses: int, waited: real, delay: real) {
    if pauses == 0 then waited == 0.0 && delay == 100.0
    else if pauses == 1 then waited == 100.0 && delay == 150.0
    else if pauses == 2 then waited == 250.0 && delay == 225.0
    else if pauses == 3 then waited == 475.0 && delay == 337.5
    else if pauses == 4 then waited == 812.5 && delay == 506.25
    else if pauses == 5 then waited == 1318.75 && delay == 759.375
    else 6 <= pauses <= 15 && waited == 2078.125 + 1000.0 * (pauses - 6) as real && delay == 1000.0
  }

  /** `waitForCache` with ideal timers: each pause lasts exactly its delay and the
      reads take no time. `dataAt` says when the cached data is present. It stops
      within 12 s; it says yes only on data it saw; it gives up at a poll that finds
      neither data nor lock; and otherwise it gives up by timeout, after fifteen pauses,
      and then somebody acquired the lock after the waiting began. */
  method WaitForCache(dataAt: real -> bool, es: seq<Event>, start: real) returns (found: bool, end: real)
    requires InOrder(es)
    ensures start <= end < start + 12000.0
    ensures found ==> dataAt(end)
    ensures !found && end < start + 11000.0 ==> !dataAt(end) && LockAt(es, end) == None
    ensures !found && end >= start + 11000.0 ==> end == start + 11078.125
    ensures !found && end >= start + 11000.0 ==>
              exists i, l :: GrantsAt(es, i, l) && start < l.acquiredAt < end
  {
    var now, delay := start, FIRST_DELAY;
    ghost var lastPoll, pauses := start, 0;
    while now - start < MAX_WAIT
      invariant OnSchedule(pauses, now - start, delay)
      invariant now > start ==> lastPoll < now <= lastPoll + MAX_DELAY && LockAt(es, lastPoll).Some?
      decreases 100 - pauses
    {
      if dataAt(now) {
        return true, now;
      }
      if LockAt(es, now) == None {
        return false, now;
      }
      lastPoll := now;
      now := now + delay;
      delay := NextDelay(delay);
      pauses := pauses + 1;
    }
    var lease := LockAt(es, lastPoll).value;
    LeaseHasGrant(es, lastPoll, lease);
    ghost var i :| GrantsAt(es, i, lease);
    assert start < lease.acquiredAt < now;
    return false, now;
  }

  class StampedeLock {
    var lock: Option<Lease>

    constructor ()
      ensures lock == None
    {
      lock := None;
    }

    method AcquireStampedeLock(lockValue: string, now: real) returns (ok: bool)
      modifies this
      ensures lock == Step(old(lock), Acquire(lockValue, now))
      ensures ok == Granted(old(lock), Acquire(lockValue, now))
      ensures ok ==> lock == Some(Lease(lockValue, now))
      ensures !ok ==> lock == old(lock)
    {
      if lock.Some? && now < lock.value.acquiredAt + LEASE {
        return false;
      }
      lock := Some(Lease(lockValue, now));
      return true;
    }

    method ReleaseStampedeLock(lockValue: string, now: real)
      modifies this
      ensures lock == Step(old(lock), Release(lockValue, now))
    {
      if lock.Some? && now < lock.value.acquiredAt + LEASE && lock.value.owner == lockValue {
        lock := None;
      }
    }
  }
}
