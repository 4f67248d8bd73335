/** Processing locks: the in-process store, the DynamoDB conditional writes, and the abstract lock
    that both refine. Times are nanoseconds. */
module Locks {
  import opened Prelude
  import Text

  const SECOND: nat := 1_000_000_000
  const MINUTE: nat := 60_000_000_000

  datatype Lock = Lock(owner: string, until: nat)

  datatype Lease = Lease(id: string, owner: string)

  datatype Acquisition = Leased(lease: Lease) | Busy | ContextDone | MissingID

  function Lifetime(ttl: int): nat { if ttl <= 0 then MINUTE else ttl }

  // ----- The abstract lock: taken only when no lock reaches beyond now -----

  predicate Free(locks: map<string, Lock>, id: string, now: nat) { id in locks ==> locks[id].until <= now }

  function Released(locks: map<string, Lock>, lease: Lease): map<string, Lock> {
    if lease.id in locks && locks[lease.id].owner == lease.owner then locks - {lease.id} else locks
  }

  // ----- MemoryStateStore -----

  class MemoryLocks {
    var locks: map<string, Lock>

    constructor ()
      ensures locks == map[]
    {
      locks := map[];
    }

    method TryAcquireProcessing(cancelled: bool, messageID: string, owner: string, ttl: int, now: nat)
      returns (res: Acquisition)
      modifies this
      ensures var id, claimant := Text.TrimSpace(messageID), if owner == "" then "memory" else owner;
              if cancelled then res == ContextDone && locks == old(locks)
              else if id == "" then res == MissingID && locks == old(locks)
              else if id !in old(locks) || old(locks)[id].until <= now then
                && res == Leased(Lease(id, claimant))
                && locks == old(locks)[id := Lock(claimant, now + if ttl <= 0 then MINUTE else ttl)]
              else res == Busy && locks == old(locks)
    {
      if cancelled {
        return ContextDone;
      }
      var id := Text.TrimSpace(messageID);
      if id == "" {
        return MissingID;
      }
      var claimant := if owner == "" then "memory" else owner;
      if id in locks && locks[id].until > now {
        return Busy;
      }
      locks := locks[id := Lock(claimant, now + Lifetime(ttl))];
      res := Leased(Lease(id, claimant));
    }

    method Release(cancelled: bool, lease: Lease) returns (ok: bool)
      modifies this
      ensures ok == !cancelled
      ensures locks == if cancelled then old(locks) else Released(old(locks), lease)
      ensures !cancelled && lease.id in old(locks) && old(locks)[lease.id].owner == lease.owner ==>
                locks == old(locks) - {lease.id}
      ensures lease.id in old(locks) && old(locks)[lease.id].owner != lease.owner ==> locks == old(locks)
    {
      if cancelled {
        return false;
      }
      if lease.id in locks && locks[lease.id].owner == lease.owner {
        locks := locks - {lease.id};
      }
      ok := true;
    }
  }

  // ----- DynamoDB: expiry in whole seconds, compared strictly -----

  class DynamoLocks {
    var items: map<string, Lock>   // until: seconds
    ghost var nominal: map<string, Lock>   // until: the instant the lease was promised to reach

    /** The stored second is the one that contains the promised instant. */
    ghost predicate Valid()
      reads this
    {
      && items.Keys == nominal.Keys
      && forall id | id in items ::
           items[id].owner == nominal[id].owner && items[id].until == nominal[id].until / SECOND
    }

    constructor ()
      ensures Valid() && nominal == map[]
    {
      items, nominal := map[], map[];
    }

    /** The conditional put takes the abstract lock whenever it succeeds, and it succeeds exactly when the
        second of the previous lease's end is over. */
    method TryAcquireProcessing(cancelled: bool, messageID: string, owner: string, ttl: int, now: nat)
      returns (res: Acquisition)
      requires Valid()
      modifies this
      ensures Valid()
      ensures var id, claimant := Text.TrimSpace(messageID), if owner == "" then "dynamodb" else owner;
              && (res.ContextDone? <==> cancelled)
              && (res.MissingID? <==> !cancelled && id == "")
              && (!res.Leased? ==> nominal == old(nominal))
              && (res.Leased? ==> res.lease == Lease(id, claimant) && Free(old(nominal), id, now)
                                  && nominal == old(nominal)[id := Lock(claimant, now + Lifetime(ttl))])
              && (res.Busy? <==> !cancelled && id != "" && id in old(nominal)
                                 && now / SECOND <= old(nominal)[id].until / SECOND)
    {
      if cancelled {
        return ContextDone;
      }
      var id := Text.TrimSpace(messageID);
      if id == "" {
        return MissingID;
      }
      var claimant := if owner == "" then "dynamodb" else owner;
      var expiresAt := (now + Lifetime(ttl)) / SECOND;
      if id in items {
        SameSecond(items[id].until, nominal[id].until, now);
      }
      if !(id !in items || items[id].until < now / SECOND) {
        return Busy;
      }
      items := items[id := Lock(claimant, expiresAt)];
      nominal := nominal[id := Lock(claimant, now + Lifetime(ttl))];
      res := Leased(Lease(id, claimant));
    }

    method Release(cancelled: bool, lease: Lease) returns (ok: bool)
      requires Valid()
      modifies this
      ensures Valid()
      ensures ok == !cancelled
      ensures nominal == if cancelled then old(nominal) else Released(old(nominal), lease)
    {
      if cancelled {
        return false;
      }
      if lease.id in items && items[lease.id].owner == lease.owner {
        items, nominal := items - {lease.id}, nominal - {lease.id};
      }
      ok := true;
    }
  }

  lemma SameSecond(second: nat, until: nat, now: nat)
    requires second == until / SECOND
    ensures second < now / SECOND ==> until <= now
    ensures until + SECOND <= now ==> second < now / SECOND
  {}

  // ----- Workers, interleaved -----

  type Worker = nat

  datatype Hold = Hold(id: string, owner: string, until: nat)

  datatype System = System(locks: map<string, Lock>, holds: map<Worker, Hold>, now: nat) {
    predicate Alive(w: Worker) { w in holds && now < holds[w].until }

    /** Every unexpired lease is the lock of its message, and no two are for the same message. */
    ghost predicate Exclusive() {
      && (forall w | Alive(w) :: holds[w].id in locks && locks[holds[w].id] == Lock(holds[w].owner, holds[w].until))
      && (forall v, w | Alive(v) && Alive(w) && v != w :: holds[v].id != holds[w].id)
    }
  }

  datatype Action =
    | Acquire(w: Worker, id: string, owner: string, ttl: int)
    | Release(w: Worker)
    | Crash(w: Worker)
    | Advance(dt: nat)

  /** An acquisition of an abstract lock, a release by owner, a crash, or the passing of time. */
  predicate Enabled(s: System, a: Action) {
    match a
    case Acquire(w, id, _, _) => w !in s.holds && Free(s.locks, id, s.now)
    case Release(w) => w in s.holds
    case Crash(w) => w in s.holds
    case Advance(_) => true
  }

  function Step(s: System, a: Action): System
    requires Enabled(s, a)
  {
    match a
    case Acquire(w, id, owner, ttl) =>
      var until := s.now + Lifetime(ttl);
      s.(locks := s.locks[id := Lock(owner, until)], holds := s.holds[w := Hold(id, owner, until)])
    case Release(w) =>
      s.(locks := Released(s.locks, Lease(s.holds[w].id, s.holds[w].owner)), holds := s.holds - {w})
    case Crash(w) => s.(holds := s.holds - {w})
    case Advance(dt) => s.(now := s.now + dt)
  }

  /** A release is on time, or no other worker with an unexpired lease on the same message goes by
      the same owner name. */
  ghost predicate Harmless(s: System, a: Action) {
    a.Release? && a.w in s.holds ==>
      || s.Alive(a.w)
      || forall v | s.Alive(v) && v != a.w && s.holds[v].id == s.holds[a.w].id ::
           s.holds[v].owner != s.holds[a.w].owner
  }

  /** One step from an exclusive state stays exclusive exactly when it is harmless. */
  lemma StepIsExclusive(s: System, a: Action)
    requires s.Exclusive() && Enabled(s, a)
    ensures Step(s, a).Exclusive() <==> Harmless(s, a)
  {
    var s' := Step(s, a);
    if Harmless(s, a) {
      forall w | s'.Alive(w)
        ensures s'.holds[w].id in s'.locks && s'.locks[s'.holds[w].id] == Lock(s'.holds[w].owner, s'.holds[w].until)
      {
        assert (a.Acquire? && w == a.w) || s.Alive(w);
      }
      forall v, w | s'.Alive(v) && s'.Alive(w) && v != w ensures s'.holds[v].id != s'.holds[w].id {
        assert (a.Acquire? && w == a.w) || s.Alive(w);
        assert (a.Acquire? && v == a.w) || s.Alive(v);
      }
    } else {
      var v :| s.Alive(v) && v != a.w && s.holds[v].id == s.holds[a.w].id && s.holds[v].owner == s.holds[a.w].owner;
      assert s'.Alive(v);
    }
  }

  ghost predicate Runs(s: System, run: seq<Action>)
    decreases |run|
  {
    run == [] || (Enabled(s, run[0]) && Harmless(s, run[0]) && Runs(Step(s, run[0]), run[1..]))
  }

  ghost function After(s: System, run: seq<Action>): System
    requires Runs(s, run)
    decreases |run|
  {
    if run == [] then s else After(Step(s, run[0]), run[1..])
  }

  /** Over every interleaving of acquisitions, releases, crashes and time whose releases are on time or by
      unshared owners, at most one worker has an unexpired lease on a message. */
  lemma {:induction false} MutualExclusion(s: System, run: seq<Action>)
    requires s.Exclusive() && Runs(s, run)
    ensures After(s, run).Exclusive()
    decreases |run|
  {
    if run != [] {
      StepIsExclusive(s, run[0]);
      MutualExclusion(Step(s, run[0]), run[1..]);
    }
  }

  /** Workers of one process share an owner name. A worker that outlives its lease then removes the
      lock of the next one, and a third worker joins it. */
  lemma LateReleaseBySharedOwner(id: string, p: string)
    ensures var s0 := System(map[], map[], 0);
            var s1 := Step(s0, Acquire(1, id, p, 10));
            var s2 := Step(s1, Advance(10));
            var s3 := Step(s2, Acquire(2, id, p, 10));
            var s4 := Step(s3, Release(1));
            && s3.Exclusive() && !Harmless(s3, Release(1)) && Enabled(s4, Acquire(3, id, p, 10))
            && (var s5 := Step(s4, Acquire(3, id, p, 10));
                s5.Alive(2) && s5.Alive(3) && s5.holds[2].id == s5.holds[3].id)
  {
    var s1 := Step(System(map[], map[], 0), Acquire(1, id, p, 10));
    var s3 := Step(Step(s1, Advance(10)), Acquire(2, id, p, 10));
    assert s3.Alive(2) && !s3.Alive(1);
    assert s3.holds == map[1 := Hold(id, p, 10), 2 := Hold(id, p, 20)];
  }
}
