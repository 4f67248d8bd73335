/** Many workers and one message id: deliveries, crashes and the clock interleaved step by step.

    A worker that holds the lease and has loaded the snapshot carries the events its run will
    still produce; they reach the store and the handlers one at a time, and a crash drops the
    rest. Every world, payload and deployment is covered, because the worker's events are those of
    `Deliver` for some of them. */
module Fleet {
  import opened Prelude
  import opened Messages
  import opened RouterSpec
  import opened Durability
  import opened Delivery
  import Locks

  type Worker = nat

  datatype Phase = Leased | Working(pending: seq<Event>)

  datatype Member = Member(owner: string, until: nat, phase: Phase)

  /** The lock, the durable log and the live workers of one message id. */
  datatype System = System(lock: Option<Locks.Lock>, log: seq<Event>, members: map<Worker, Member>, now: nat)

  datatype Action =
    | Acquire(w: Worker, owner: string, ttl: int)
    | Load(w: Worker, app: App, r: Config, world: World, req: Request, ids: Identified)
    | Emit(w: Worker)
    | Release(w: Worker)
    | Crash(w: Worker)
    | Advance(dt: nat)

  /** The deployments and the outside world respect the duty. */
  ghost predicate Fits(d: Duty, a: Action) {
    a.Load? ==> Applies(d, a.r, a.world) && (d.forward ==> ForwardSlip(a.app.steps))
  }

  /** What may happen next. Time does not pass the expiry of a live worker's lease. */
  ghost predicate Enabled(s: System, a: Action) {
    match a
    case Acquire(w, _, _) => w !in s.members && (s.lock.Some? ==> s.lock.value.until <= s.now)
    case Load(w, _, _, _, _, _) => w in s.members && s.members[w].phase.Leased?
    case Emit(w) => w in s.members && s.members[w].phase.Working? && s.members[w].phase.pending != []
    case Release(w) => w in s.members && (s.members[w].phase.Working? ==> s.members[w].phase.pending == [])
    case Crash(w) => w in s.members
    case Advance(dt) => forall w | w in s.members :: s.now + dt < s.members[w].until
  }

  function Step(s: System, a: Action): System
    requires Enabled(s, a)
  {
    match a
    case Acquire(w, owner, ttl) =>
      var until := s.now + Locks.Lifetime(ttl);
      s.(lock := Some(Locks.Lock(owner, until)), members := s.members[w := Member(owner, until, Leased)])
    case Load(w, app, r, world, req, ids) =>
      var c := Deliver(app, r, world, req, ids, s.log).0;
      s.(members := s.members[w := s.members[w].(phase := Working(c.log[|s.log|..]))])
    case Emit(w) =>
      var m := s.members[w];
      s.(log := s.log + [m.phase.pending[0]],
         members := s.members[w := m.(phase := Working(m.phase.pending[1..]))])
    case Release(w) =>
      var mine := s.lock.Some? && s.lock.value.owner == s.members[w].owner;
      s.(lock := if mine then None else s.lock, members := s.members - {w})
    case Crash(w) => s.(members := s.members - {w})
    case Advance(dt) => s.(now := s.now + dt)
  }

  /** At most one live worker, which is the holder of the lock, and a log that stays good whatever
      part of that worker's remaining events takes place. */
  predicate Inv(d: Duty, s: System) {
    && Good(d, s.log)
    && (forall v, w | v in s.members && w in s.members :: v == w)
    && (forall w | w in s.members ::
          && s.now < s.members[w].until
          && s.lock == Some(Locks.Lock(s.members[w].owner, s.members[w].until))
          && (s.members[w].phase.Working? ==> Good(d, s.log + s.members[w].phase.pending)))
  }

  /** What a load finds is at least as far as the log. */
  lemma {:induction false} StoredIsUpToDate(d: Duty, log: seq<Event>)
    requires Good(d, log)
    ensures Stored(log).None? ==> EndedSteps(log) == {} && WonKeys(log) == {}
    ensures Stored(log).Some? ==>
              var s := Stored(log).value;
              && 0 <= s.cursor <= |s.slip|
              && (d.forward ==> ForwardSlip(s.slip) && Below(EndedSteps(log), s.cursor))
              && (d.idempotent ==> WonKeys(log) <= SuccessKeys(s))
  {
    if log != [] {
      StoredIsUpToDate(d, log[..|log| - 1]);
    }
  }

  lemma PreparedIsUpToDate(d: Duty, app: App, req: Request, ids: Identified, log: seq<Event>)
    requires Good(d, log) && (d.forward ==> ForwardSlip(app.steps))
    ensures UpToDate(d, Traced(Prepared(app, req, ids, Stored(log)), req), log)
  {
    StoredIsUpToDate(d, log);
    if Stored(log).Some? {
      RestoredExtends(app, req, ids, Stored(log).value);
    } else {
      assert [] + app.steps == app.steps;
    }
  }

  /** What a restored message takes over from its snapshot. */
  lemma RestoredExtends(app: App, req: Request, ids: Identified, s: Snapshot)
    requires 0 <= s.cursor <= |s.slip|
    ensures var m := Traced(Prepared(app, req, ids, Some(s)), req);
            && m.cursor == s.cursor && m.states == s.states && Extends(s, m.ToSnapshot())
            && m.slip == if s.slip == [] then app.steps else s.slip
  {
    assert SavedErrors(RestoredErrors(s.errors)) == s.errors;
    if s.slip == [] { assert s.slip + app.steps == app.steps; }
  }

  lemma DeliverKeepsGuarantees(d: Duty, app: App, r: Config, w: World, req: Request, ids: Identified, log: seq<Event>)
    requires Good(d, log) && Applies(d, r, w) && (d.forward ==> ForwardSlip(app.steps))
    ensures var c := Deliver(app, r, w, req, ids, log).0; log <= c.log && Good(d, c.log)
  {
    PreparedIsUpToDate(d, app, req, ids, log);
    var m := Traced(Prepared(app, req, ids, Stored(log)), req);
    PreparedIsValid(app, req, ids, Stored(log));
    ProcessKeepsGuarantees(d, r, w, Run(m, log, 0));
  }

  lemma {:induction false} GoodPrefix(d: Duty, front: seq<Event>, rest: seq<Event>)
    requires Good(d, front + rest)
    ensures Good(d, front)
    decreases |rest|
  {
    if rest == [] {
      assert front + rest == front;
    } else {
      var all := front + rest;
      assert all[..|all| - 1] == front + rest[..|rest| - 1];
      GoodPrefix(d, front, rest[..|rest| - 1]);
    }
  }

  lemma LoadKeepsInv(d: Duty, s: System, a: Action)
    requires Inv(d, s) && Enabled(s, a) && Fits(d, a) && a.Load?
    ensures Inv(d, Step(s, a))
  {
    DeliverKeepsGuarantees(d, a.app, a.r, a.world, a.req, a.ids, s.log);
    Rejoined(s.log, Deliver(a.app, a.r, a.world, a.req, a.ids, s.log).0.log);
  }

  lemma Rejoined(front: seq<Event>, log: seq<Event>)
    requires front <= log
    ensures front + log[|front|..] == log
  {}

  lemma SplitFirst(log: seq<Event>, pending: seq<Event>)
    requires pending != []
    ensures log + pending == (log + [pending[0]]) + pending[1..]
    ensures (log + pending)[|log|] == pending[0]
  {}

  lemma EmitKeepsInv(d: Duty, s: System, a: Action)
    requires Inv(d, s) && Enabled(s, a) && a.Emit?
    ensures Inv(d, Step(s, a))
  {
    var pending := s.members[a.w].phase.pending;
    SplitFirst(s.log, pending);
    GoodPrefix(d, s.log + [pending[0]], pending[1..]);
  }

  lemma OtherStepsKeepInv(d: Duty, s: System, a: Action)
    requires Inv(d, s) && Enabled(s, a) && !a.Load? && !a.Emit?
    ensures Inv(d, Step(s, a))
  {}

  lemma StepKeepsInv(d: Duty, s: System, a: Action)
    requires Inv(d, s) && Enabled(s, a) && Fits(d, a)
    ensures Inv(d, Step(s, a))
  {
    if a.Load? {
      LoadKeepsInv(d, s, a);
    } else if a.Emit? {
      EmitKeepsInv(d, s, a);
    } else {
      OtherStepsKeepInv(d, s, a);
    }
  }

  ghost predicate Runs(d: Duty, s: System, run: seq<Action>)
    decreases |run|
  {
    run == [] || (Enabled(s, run[0]) && Fits(d, run[0]) && Runs(d, Step(s, run[0]), run[1..]))
  }

  ghost function After(d: Duty, s: System, run: seq<Action>): System
    requires Runs(d, s, run)
    decreases |run|
  {
    if run == [] then s else After(d, Step(s, run[0]), run[1..])
  }

  const EMPTY := System(None, [], map[], 0)

  lemma {:induction false} RunKeepsInv(d: Duty, s: System, run: seq<Action>)
    requires Inv(d, s) && Runs(d, s, run)
    ensures Inv(d, After(d, s, run))
    ensures s.log <= After(d, s, run).log
    decreases |run|
  {
    if run != [] {
      StepKeepsInv(d, s, run[0]);
      RunKeepsInv(d, Step(s, run[0]), run[1..]);
    }
  }

  // ----- The leases of a system -----

  /** What a system looks like to the locks. */
  function Leases(s: System, id: string): Locks.System {
    Locks.System(if s.lock.Some? then map[id := s.lock.value] else map[],
                 map w | w in s.members :: Locks.Hold(id, s.members[w].owner, s.members[w].until), s.now)
  }

  /** Loading and emitting are no steps of the locks. */
  function LeaseSteps(a: Action, id: string): seq<Locks.Action> {
    match a
    case Acquire(w, owner, ttl) => [Locks.Acquire(w, id, owner, ttl)]
    case Release(w) => [Locks.Release(w)]
    case Crash(w) => [Locks.Crash(w)]
    case Advance(dt) => [Locks.Advance(dt)]
    case _ => []
  }

  function LeaseRun(run: seq<Action>, id: string): seq<Locks.Action>
    decreases |run|
  {
    if run == [] then [] else LeaseSteps(run[0], id) + LeaseRun(run[1..], id)
  }

  lemma StepOfLeases(d: Duty, s: System, a: Action, id: string)
    requires Inv(d, s) && Enabled(s, a)
    ensures var before, after, steps := Leases(s, id), Leases(Step(s, a), id), LeaseSteps(a, id);
            if steps == [] then after == before
            else Locks.Enabled(before, steps[0]) && Locks.Harmless(before, steps[0])
                 && after == Locks.Step(before, steps[0])
  {
    if a.Load? || a.Emit? {
      LeasesStay(s, a, id);
    } else {
      LeasesMove(d, s, a, id);
    }
  }

  lemma LeasesStay(s: System, a: Action, id: string)
    requires Enabled(s, a) && (a.Load? || a.Emit?)
    ensures Leases(Step(s, a), id) == Leases(s, id)
  {
    assert Leases(Step(s, a), id).holds == Leases(s, id).holds;
  }

  lemma LeasesMove(d: Duty, s: System, a: Action, id: string)
    requires Inv(d, s) && Enabled(s, a) && !a.Load? && !a.Emit?
    ensures var before, step := Leases(s, id), LeaseSteps(a, id)[0];
            && Locks.Enabled(before, step) && Locks.Harmless(before, step)
            && Leases(Step(s, a), id) == Locks.Step(before, step)
  {
    var before := Leases(s, id);
    assert a.Release? ==> before.Alive(a.w);
    assert Leases(Step(s, a), id).holds == Locks.Step(before, LeaseSteps(a, id)[0]).holds;
  }

  /** A run of the fleet is a run of the locks whose releases are harmless: the protocol of the leases is
      the one that excludes other workers. */
  lemma {:induction false} FleetRunsOnLocks(d: Duty, s: System, run: seq<Action>, id: string)
    requires Inv(d, s) && Runs(d, s, run)
    ensures Locks.Runs(Leases(s, id), LeaseRun(run, id))
    ensures Locks.After(Leases(s, id), LeaseRun(run, id)) == Leases(After(d, s, run), id)
    decreases |run|
  {
    if run != [] {
      var steps, rest := LeaseSteps(run[0], id), LeaseRun(run[1..], id);
      StepKeepsInv(d, s, run[0]);
      StepOfLeases(d, s, run[0], id);
      FleetRunsOnLocks(d, Step(s, run[0]), run[1..], id);
      if steps == [] {
        assert steps + rest == rest;
      } else {
        assert (steps + rest)[0] == steps[0] && (steps + rest)[1..] == rest;
      }
    }
  }

  // ----- What the log of every reachable system says -----

  /** At most one worker at a time works on the message, and it holds the lock. */
  lemma OneWorkerAtATime(d: Duty, run: seq<Action>, v: Worker, w: Worker)
    requires Runs(d, EMPTY, run)
    requires v in After(d, EMPTY, run).members && w in After(d, EMPTY, run).members
    ensures v == w
  {
    RunKeepsInv(d, EMPTY, run);
  }

  lemma {:induction false} GoodAt(d: Duty, log: seq<Event>, b: nat)
    requires Good(d, log) && b < |log|
    ensures Allowed(d, log[..b], log[b])
  {
    if b < |log| - 1 {
      GoodAt(d, log[..|log| - 1], b);
      assert log[..|log| - 1][..b] == log[..b];
    }
  }

  lemma {:induction false} Recorded(log: seq<Event>, a: nat, b: nat)
    requires a < b <= |log|
    ensures log[a].Ended? ==> log[a].index in EndedSteps(log[..b])
    ensures log[a].Saved? ==> SuccessKeys(log[a].snapshot) <= WonKeys(log[..b])
    decreases b
  {
    assert log[..b][..b - 1] == log[..b - 1];
    if a < b - 1 {
      Recorded(log, a, b - 1);
    }
  }

  /** Over any interleaving of deliveries, errors, cancellations, failed saves and crashes, when
      all jumps go forward: once a step has ended without error, no handler of that step or an
      earlier one is invoked, and every later snapshot has its cursor past the step. */
  lemma EndedStepsNeverRunAgain(d: Duty, run: seq<Action>, a: nat, b: nat)
    requires d.forward && Runs(d, EMPTY, run)
    requires a < b < |After(d, EMPTY, run).log|
    ensures var log := After(d, EMPTY, run).log;
            log[a].Ended? ==>
              && (log[b].Invoked? ==> log[b].index > log[a].index)
              && (log[b].Saved? ==> log[b].snapshot.cursor > log[a].index)
  {
    var log := After(d, EMPTY, run).log;
    RunKeepsInv(d, EMPTY, run);
    GoodAt(d, log, b);
    Recorded(log, a, b);
  }

  /** With idempotency on, whatever the jumps: a success that a snapshot records for a step key is
      in every later snapshot, and no handler is invoked under that key again. */
  lemma RecordedSuccessIsFinal(d: Duty, run: seq<Action>, a: nat, b: nat, key: string)
    requires d.idempotent && Runs(d, EMPTY, run)
    requires a < b < |After(d, EMPTY, run).log|
    ensures var log := After(d, EMPTY, run).log;
            log[a].Saved? && key in SuccessKeys(log[a].snapshot) ==>
              && (log[b].Saved? ==> key in SuccessKeys(log[b].snapshot))
              && (log[b].Invoked? ==> log[b].key != key)
  {
    var log := After(d, EMPTY, run).log;
    RunKeepsInv(d, EMPTY, run);
    GoodAt(d, log, b);
    Recorded(log, a, b);
  }

  lemma {:induction false} StoredExtends(d: Duty, log: seq<Event>, a: nat, b: nat)
    requires Good(d, log) && a < b <= |log| && log[a].Saved?
    ensures Stored(log[..b]).Some?
    ensures var s, t := log[a].snapshot, Stored(log[..b]).value;
            s.id == t.id && s.history <= t.history && s.errors <= t.errors
    decreases b
  {
    assert log[..b][..b - 1] == log[..b - 1];
    if a < b - 1 {
      StoredExtends(d, log, a, b - 1);
      GoodAt(d, log, b - 1);
    }
  }

  /** The audit trail only grows: the history and the errors of a snapshot begin those of every
      later snapshot, across all deliveries and crashes. */
  lemma TrailIsAppendOnly(d: Duty, run: seq<Action>, a: nat, b: nat)
    requires Runs(d, EMPTY, run)
    requires a < b < |After(d, EMPTY, run).log|
    ensures var log := After(d, EMPTY, run).log;
            log[a].Saved? && log[b].Saved? ==>
              && log[a].snapshot.history <= log[b].snapshot.history
              && log[a].snapshot.errors <= log[b].snapshot.errors
  {
    var log := After(d, EMPTY, run).log;
    RunKeepsInv(d, EMPTY, run);
    if log[a].Saved? && log[b].Saved? {
      StoredExtends(d, log, a, b + 1);
      assert log[..b + 1][..b] == log[..b];
    }
  }

  // ----- A finished message stays finished -----

  /** Everything after the front is a snapshot at the end of its slip. */
  predicate Quiet(front: seq<Event>, log: seq<Event>) {
    && front <= log
    && forall k | |front| <= k < |log| :: log[k].Saved? && AtEnd(log[k].snapshot)
  }

  predicate AtEnd(s: Snapshot) { s.slip != [] && s.cursor == |s.slip| }

  predicate Finished(log: seq<Event>) { Stored(log).Some? && AtEnd(Stored(log).value) }

  lemma QuietStaysFinished(front: seq<Event>, log: seq<Event>)
    requires Quiet(front, log) && Finished(front)
    ensures Finished(log)
    decreases |log|
  {
    if |log| == |front| {
      assert log == front;
    }
  }

  lemma ProcessAtEndIsQuiet(r: Config, w: World, c: Run)
    requires c.m.cursor == |c.m.slip| && c.m.slip != []
    ensures Quiet(c.log, Process(r, w, c).0.log)
  {
    var c1 := c.With(Labelled(r, c.m));
    var f := Persist(r, w, c1);
    assert Quiet(c.log, f.run.log);
    if f.Next? {
      LoopAtEndIsQuiet(r, w, c.log, f.run);
    }
  }

  lemma LoopAtEndIsQuiet(r: Config, w: World, front: seq<Event>, c: Run)
    requires Quiet(front, c.log) && c.m.cursor == |c.m.slip| && c.m.slip != []
    ensures Quiet(front, Loop(r, w, c).0.log)
  {
    var f := Iterate(r, w, c);
    if f.Break? {
      assert f == Flow.Break(c.Tick());
    }
  }

  lemma DeliverWhenFinishedIsQuiet(d: Duty, app: App, r: Config, w: World, req: Request, ids: Identified,
                                   front: seq<Event>, log: seq<Event>)
    requires Quiet(front, log) && Finished(log)
    ensures Quiet(front, Deliver(app, r, w, req, ids, log).0.log)
  {
    var m := Prepared(app, req, ids, Stored(log));
    PreparedIsValid(app, req, ids, Stored(log));
    if req.loads && !AlreadyComplete(m) {
      ProcessAtEndIsQuiet(r, w, Run(Traced(m, req), log, 0));
    }
  }

  predicate Resting(front: seq<Event>, s: System) {
    && Quiet(front, s.log)
    && forall w | w in s.members && s.members[w].phase.Working? :: Quiet(front, s.log + s.members[w].phase.pending)
  }

  lemma LoadKeepsResting(d: Duty, front: seq<Event>, s: System, a: Action)
    requires Finished(front) && Resting(front, s) && Enabled(s, a) && a.Load?
    requires forall w | w in s.members :: w == a.w
    ensures Resting(front, Step(s, a))
  {
    QuietStaysFinished(front, s.log);
    DeliverWhenFinishedIsQuiet(d, a.app, a.r, a.world, a.req, a.ids, front, s.log);
    var c := Deliver(a.app, a.r, a.world, a.req, a.ids, s.log).0;
    if s.log <= c.log { Rejoined(s.log, c.log); }
  }

  lemma QuietSplits(front: seq<Event>, log: seq<Event>, pending: seq<Event>)
    requires Quiet(front, log) && Quiet(front, log + pending) && pending != []
    ensures Quiet(front, log + [pending[0]]) && Quiet(front, (log + [pending[0]]) + pending[1..])
  {
    SplitFirst(log, pending);
  }

  lemma EmitKeepsResting(front: seq<Event>, s: System, a: Action)
    requires Resting(front, s) && Enabled(s, a) && a.Emit?
    requires forall w | w in s.members :: w == a.w
    ensures Resting(front, Step(s, a))
  {
    QuietSplits(front, s.log, s.members[a.w].phase.pending);
  }

  lemma StepKeepsResting(d: Duty, front: seq<Event>, s: System, a: Action)
    requires Finished(front) && Resting(front, s) && Inv(d, s) && Enabled(s, a)
    ensures Resting(front, Step(s, a))
  {
    if a.Load? {
      LoadKeepsResting(d, front, s, a);
    } else if a.Emit? {
      EmitKeepsResting(front, s, a);
    }
  }

  lemma {:induction false} RunKeepsResting(d: Duty, front: seq<Event>, s: System, run: seq<Action>)
    requires Finished(front) && Resting(front, s) && Inv(d, s) && Runs(d, s, run)
    ensures Quiet(front, After(d, s, run).log)
    decreases |run|
  {
    if run != [] {
      StepKeepsResting(d, front, s, run[0]);
      StepKeepsInv(d, s, run[0]);
      RunKeepsResting(d, front, Step(s, run[0]), run[1..]);
    }
  }

  /** Once no worker is active and the stored cursor is at the end of the slip, no delivery ever
      invokes a handler again, and every later snapshot stays at the end. */
  lemma FinishedMessagesAreLeftAlone(d: Duty, run: seq<Action>, later: seq<Action>)
    requires Runs(d, EMPTY, run) && Runs(d, After(d, EMPTY, run), later)
    requires After(d, EMPTY, run).members == map[] && Finished(After(d, EMPTY, run).log)
    ensures Quiet(After(d, EMPTY, run).log, After(d, After(d, EMPTY, run), later).log)
  {
    RunKeepsInv(d, EMPTY, run);
    var s := After(d, EMPTY, run);
    RunKeepsResting(d, s.log, s, later);
  }
}
