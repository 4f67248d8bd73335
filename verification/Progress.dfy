/** How far one call of Process gets, and what its snapshots say about running steps. */
module Progress {
  import opened Prelude
  import opened Messages
  import opened RouterSpec
  import opened Durability
  import Resilience

  // ----- The steps visited -----

  /** The indexes of the steps entered, in order. */
  function Visits(log: seq<Event>): seq<nat> {
    if log == [] then []
    else Visits(log[..|log| - 1]) + match log[|log| - 1] { case Entered(i) => [i] case _ => [] }
  }

  lemma {:induction false} VisitsStay(log: seq<Event>, log': seq<Event>)
    requires Grows(log, log')
    ensures Visits(log') == Visits(log)
    decreases |log'|
  {
    if |log'| == |log| {
      assert log' == log;
    } else {
      VisitsStay(log, log'[..|log'| - 1]);
    }
  }

  lemma VisitsOfEntered(log: seq<Event>, i: nat)
    ensures Visits(log + [Entered(i)]) == Visits(log) + [i]
  {
    assert (log + [Entered(i)])[..|log|] == log;
  }

  /** Strictly increasing within [lo, hi). */
  predicate Increasing(vs: seq<nat>, lo: nat, hi: nat) {
    && (forall k | 0 <= k < |vs| :: lo <= vs[k] < hi)
    && (forall j, k | 0 <= j < k < |vs| :: vs[j] < vs[k])
  }

  lemma {:induction false} IncreasingIsShort(vs: seq<nat>, lo: nat, hi: nat)
    requires Increasing(vs, lo, hi) && lo <= hi
    ensures |vs| <= hi - lo
    decreases |vs|
  {
    if vs != [] {
      IncreasingIsShort(vs[1..], vs[0] + 1, hi);
    }
  }

  lemma FailureGoesForward(r: Config, w: World, c: Run, i: nat, key: string, err: Fault)
    requires c.m.Valid() && i < |c.m.slip| && c.m.cursor > i && ForwardSlip(c.m.slip)
    ensures var f := AfterFailure(r, w, c, c.m.slip[i], i, key, err); f.Next? ==> f.run.m.cursor > i
  {}

  lemma SuccessGoesForward(r: Config, w: World, c: Run, i: nat, key: string, proceed: bool)
    requires c.m.Valid() && i < |c.m.slip| && c.m.cursor > i && ForwardWorld(w)
    ensures var f := AfterSuccess(r, w, c, c.m.slip[i], i, key, proceed); f.Next? ==> f.run.m.cursor > i
  {}

  /** A turn that goes on leaves the cursor past the step it visited. */
  lemma VisitGoesForward(r: Config, w: World, c: Run)
    requires c.m.cursor < |c.m.slip| && ForwardSlip(c.m.slip) && ForwardWorld(w)
    ensures var f := Visit(r, w, c); f.Next? ==> f.run.m.cursor > c.m.cursor
  {
    var f := Enter(r, w, c);
    if f.Next? {
      DispatchGoesForward(r, w, f.run, c.m.cursor);
    }
  }

  lemma DispatchGoesForward(r: Config, w: World, c: Run, i: nat)
    requires i < |c.m.slip| && c.m.cursor == i + 1 && ForwardSlip(c.m.slip) && ForwardWorld(w)
    ensures var f := Dispatch(r, w, c, i); f.Next? ==> f.run.m.cursor > i
  {
    var step := c.m.slip[i];
    var key := KeyOf(r, w, c, i);
    if step.name in r.handlers && !(r.idempotent && AlreadyDone(c.m, key)) {
      var f := Persist(r, w, c.With(c.m.MarkRunning(key, step, i)));
      if f.Next? {
        var (c1, res) := Attempt(w, f.run, step, i, key, 1);
        match res
        case Proceeds(proceed) => SuccessGoesForward(r, w, c1, i, key, proceed);
        case Fails(err) => FailureGoesForward(r, w, c1, i, key, err);
      }
    }
  }

  lemma IterateVisits(r: Config, w: World, c: Run)
    requires c.m.Valid()
    ensures Visits(Iterate(r, w, c).run.log)
            == Visits(c.log) + if w.Cancelled(c.t) || c.m.cursor >= |c.m.slip| then [] else [c.m.cursor]
  {
    var f := Iterate(r, w, c);
    if w.Cancelled(c.t) || c.m.cursor >= |c.m.slip| {
      VisitsStay(c.log, f.run.log);
    } else {
      VisitsOfEntered(c.log, c.m.cursor);
      VisitsStay(c.log + [Entered(c.m.cursor)], f.run.log);
    }
  }

  /** The visits go on from before, strictly increasing within [lo, hi). */
  predicate Advances(before: seq<nat>, after: seq<nat>, lo: nat, hi: nat) {
    before <= after && Increasing(after[|before|..], lo, hi)
  }

  lemma AdvancesByOne(before: seq<nat>, v: nat, all: seq<nat>, lo: nat, hi: nat)
    requires v < hi && v < lo && Advances(before + [v], all, lo, hi)
    ensures Advances(before, all, v, hi)
  {
    var tail := all[|before|..];
    assert all[|before + [v]|..] == tail[1..] && tail[0] == v;
    assert forall k | 1 <= k < |tail| :: tail[k] == tail[1..][k - 1];
  }

  lemma AdvancesAtMostOne(before: seq<nat>, v: nat, hi: nat)
    ensures Advances(before, before, v, hi)
    ensures v < hi ==> Advances(before, before + [v], v, hi)
  {
    assert before[|before|..] == [];
    assert (before + [v])[|before|..] == [v];
  }

  lemma FinishVisitsNothing(r: Config, w: World, c: Run)
    ensures Visits(Finish(r, w, c).0.log) == Visits(c.log)
  {
    VisitsStay(c.log, Finish(r, w, c).0.log);
  }

  /** A turn that goes on has visited the step at the cursor and moved past it. */
  lemma TurnAdvances(r: Config, w: World, c: Run)
    requires c.m.Valid() && ForwardSlip(c.m.slip) && ForwardWorld(w) && Iterate(r, w, c).Next?
    ensures var c' := Iterate(r, w, c).run;
            && c.m.cursor < |c.m.slip| && Visits(c'.log) == Visits(c.log) + [c.m.cursor]
            && c'.m.slip == c.m.slip && c'.m.cursor > c.m.cursor
  {
    IterateVisits(r, w, c);
    VisitGoesForward(r, w, c.Tick());
  }

  lemma {:induction false} LoopVisitsForward(r: Config, w: World, c: Run)
    requires c.m.Valid() && ForwardSlip(c.m.slip) && ForwardWorld(w)
    ensures Advances(Visits(c.log), Visits(Loop(r, w, c).0.log), c.m.cursor, |c.m.slip|)
    decreases if w.live > c.t then w.live - c.t else 0
  {
    var f := Iterate(r, w, c);
    IterateVisits(r, w, c);
    AdvancesAtMostOne(Visits(c.log), c.m.cursor, |c.m.slip|);
    match f
    case Next(c') =>
      TurnAdvances(r, w, c);
      LoopVisitsForward(r, w, c');
      AdvancesByOne(Visits(c.log), c.m.cursor, Visits(Loop(r, w, c').0.log), c'.m.cursor, |c.m.slip|);
    case Break(c') => FinishVisitsNothing(r, w, c');
    case Return(_, _) =>
  }

  /** With forward jumps, a call visits strictly increasing indexes from the cursor on: each step at
      most once, and at most len(slip) - cursor of them. */
  lemma ProcessMakesProgress(r: Config, w: World, c: Run)
    requires c.m.Valid() && ForwardSlip(c.m.slip) && ForwardWorld(w)
    ensures var vs := Visits(Process(r, w, c).0.log);
            && Visits(c.log) <= vs
            && Increasing(vs[|Visits(c.log)|..], c.m.cursor, |c.m.slip|)
            && |vs| - |Visits(c.log)| <= |c.m.slip| - c.m.cursor
  {
    var f := Persist(r, w, c.With(Labelled(r, c.m)));
    VisitsStay(c.log, f.run.log);
    if f.Next? {
      LoopVisitsForward(r, w, f.run);
    }
    var vs := Visits(Process(r, w, c).0.log);
    IncreasingIsShort(vs[|Visits(c.log)|..], c.m.cursor, |c.m.slip|);
  }

  // ----- The outcome -----

  lemma {:induction false} LoopOutcome(r: Config, w: World, c: Run)
    requires c.m.Valid() && c.m.status == Running
    ensures var (c', err) := Loop(r, w, c);
            && Keeps(c.m, c'.m)
            && (err.None? ==> (c'.m.status == Completed && c'.m.cursor == |c.m.slip|) || c'.m.status == Stopped)
    decreases if w.live > c.t then w.live - c.t else 0
  {
    var f := Iterate(r, w, c);
    if f.Next? {
      LoopOutcome(r, w, f.run);
    }
  }

  /** Process returns without an error only when the message is completed with its cursor at the
      end of the slip, or was stopped by a handler; the cursor never leaves the slip. */
  lemma NilMeansCompletedOrStopped(r: Config, w: World, c: Run)
    requires c.m.Valid()
    ensures var (c', err) := Process(r, w, c);
            && Keeps(c.m, c'.m)
            && (err.None? ==> (c'.m.status == Completed && c'.m.cursor == |c.m.slip|) || c'.m.status == Stopped)
  {
    var f := Persist(r, w, c.With(Labelled(r, c.m)));
    if f.Next? {
      LoopOutcome(r, w, f.run);
    }
  }

  // ----- At most one running step in a snapshot -----

  predicate IsRunning(states: map<string, StepState>, k: string) { k in states && states[k].status == SRunning }

  predicate Idle(states: map<string, StepState>) { forall k | k in states :: !IsRunning(states, k) }

  /** At most this key is running, for the step before the cursor. */
  predicate Only(states: map<string, StepState>, key: string, cursor: int) {
    && (forall k | k in states :: IsRunning(states, k) ==> k == key)
    && (IsRunning(states, key) ==> states[key].stepIndex + 1 == cursor)
  }

  /** The snapshot shows at most one running step, the one just before its cursor. */
  predicate Tidy(s: Snapshot) {
    forall j, k | j in s.states && k in s.states ::
      IsRunning(s.states, j) && IsRunning(s.states, k) ==> j == k && s.states[k].stepIndex + 1 == s.cursor
  }

  /** The snapshots saved after the first n events are tidy. */
  predicate TidyFrom(n: nat, log: seq<Event>) {
    |log| <= n || (TidyFrom(n, log[..|log| - 1]) && (log[|log| - 1].Saved? ==> Tidy(log[|log| - 1].snapshot)))
  }

  lemma TidySnoc(n: nat, log: seq<Event>, e: Event)
    requires TidyFrom(n, log) && (e.Saved? ==> Tidy(e.snapshot))
    ensures TidyFrom(n, log + [e])
  {
    assert (log + [e])[..|log|] == log;
  }

  lemma {:induction false} TidyAt(n: nat, log: seq<Event>, k: nat)
    requires TidyFrom(n, log) && n <= k < |log| && log[k].Saved?
    ensures Tidy(log[k].snapshot)
  {
    if k < |log| - 1 {
      TidyAt(n, log[..|log| - 1], k);
    }
  }

  lemma SaveIsTidy(r: Config, w: World, c: Run, background: bool, n: nat)
    requires TidyFrom(n, c.log) && Tidy(c.m.ToSnapshot())
    ensures TidyFrom(n, SaveState(r, w, c, background).0.log)
  {
    TidySnoc(n, c.log, Saved(c.m.ToSnapshot()));
  }

  /** From an idle message, this part of the body saves tidy snapshots and ends idle. */
  predicate StaysIdle(n: nat, f: Flow) { TidyFrom(n, f.run.log) && Idle(f.run.m.states) }

  lemma PersistIsTidy(r: Config, w: World, c: Run, n: nat)
    requires TidyFrom(n, c.log) && Idle(c.m.states)
    ensures StaysIdle(n, Persist(r, w, c))
  {
    SaveIsTidy(r, w, c, false, n);
  }

  lemma AbortIsTidy(r: Config, w: World, c: Run, i: nat, err: Fault, n: nat)
    requires c.m.Valid() && TidyFrom(n, c.log) && Idle(c.m.states)
    ensures StaysIdle(n, Abort(r, w, c, i, err))
  {
    SaveIsTidy(r, w, c.With(c.m.SetCursor(i).SetStatus(Failed)), true, n);
  }

  lemma FinishedIsIdle(m: Msg, key: string, cursor: int, s: StepStatus, err: Option<Fault>)
    requires s != SRunning && (Only(m.states, key, cursor) || Idle(m.states))
    ensures Idle(m.MarkFinished(key, s, err).states)
  {}

  lemma OnFailureIsTidy(r: Config, w: World, c: Run, step: StepDef, i: nat, key: string, err: Fault, n: nat)
    requires c.m.Valid() && step.resilience.Action() != Resilience.Default
    requires TidyFrom(n, c.log) && Idle(c.m.states)
    ensures StaysIdle(n, OnFailure(r, w, c, step, i, key, err))
  {
    match step.resilience.Action()
    case Stop => AbortIsTidy(r, w, c, i, StepFailed(step.name, err.Text()), n);
    case Continue =>
      FinishedIsIdle(c.m.AddHistory(step.name, false, SFailed), key, 0, SFailed, Some(err));
      PersistIsTidy(r, w, c.With(c.m.AddHistory(step.name, false, SFailed).MarkFinished(key, SFailed, Some(err))), n);
    case Skip =>
      FinishedIsIdle(c.m.AddHistory(step.name, true, SSkipped), key, 0, SSkipped, Some(err));
      PersistIsTidy(r, w, c.With(c.m.AddHistory(step.name, true, SSkipped).MarkFinished(key, SSkipped, Some(err))), n);
    case Jump =>
      match FindStep(c.m.slip, step.resilience.onFailure.to) {
        case None => AbortIsTidy(r, w, c, i, TargetMissing(step.name, step.resilience.onFailure.to), n);
        case Some(j) =>
          FinishedIsIdle(c.m.AddHistory(step.name, true, SJumped), key, 0, SJumped, Some(err));
          PersistIsTidy(r, w, c.With(c.m.AddHistory(step.name, true, SJumped)
                                        .MarkFinished(key, SJumped, Some(err)).SetCursor(j)), n);
      }
    case Unknown(_) => AbortIsTidy(r, w, c, i, UnknownAction(step.name, step.resilience.onFailure.action), n);
  }

  lemma AfterFailureIsTidy(r: Config, w: World, c: Run, step: StepDef, i: nat, key: string, err: Fault, n: nat)
    requires c.m.Valid() && TidyFrom(n, c.log) && Only(c.m.states, key, i + 1)
    ensures StaysIdle(n, AfterFailure(r, w, c, step, i, key, err))
  {
    var c1 := c.With(c.m.AddError(step.name, err).MarkFinished(key, SFailed, Some(err)));
    FinishedIsIdle(c.m.AddError(step.name, err), key, i + 1, SFailed, Some(err));
    if step.resilience.Action() != Resilience.Default {
      OnFailureIsTidy(r, w, c1, step, i, key, err, n);
    } else if r.policy == StopOnError {
      AbortIsTidy(r, w, c1, i, StepFailed(step.name, err.Text()), n);
    } else if r.policy == ContinueOnError {
      PersistIsTidy(r, w, c1.With(c1.m.AddHistory(step.name, false, SFailed)), n);
    } else {
      PersistIsTidy(r, w, c1.With(c1.m.AddHistory(step.name, true, SSkipped)), n);
    }
  }

  lemma AfterRedirectIsTidy(r: Config, w: World, c: Run, step: StepDef, i: nat, key: string, proceed: bool, n: nat)
    requires c.m.Valid() && TidyFrom(n, c.log) && Idle(c.m.states)
    ensures StaysIdle(n, AfterRedirect(r, w, c, step, i, key, proceed))
  {
    var d := w.redirect(c.t, c.m, step, i);
    match d.err
    case None =>
      TidySnoc(n, c.log, Ended(i));
      PersistIsTidy(r, w, Redirected(c, d).Emit(Ended(i)), n);
    case Some(text) =>
      var m := RedirectFailed(c.m, d, step, key, text);
      FinishedIsIdle(c.m.(payload := d.payload).AddError(step.name, Raised(text)), key, 0, SFailed, Some(Raised(text)));
      if r.policy == StopOnError {
        AbortIsTidy(r, w, c.Tick().With(m), i, StepFailed(step.name, text), n);
      } else {
        PersistIsTidy(r, w, Redirected(c.With(m), d), n);
      }
  }

  lemma AfterSuccessIsTidy(r: Config, w: World, c: Run, step: StepDef, i: nat, key: string, proceed: bool, n: nat)
    requires c.m.Valid() && TidyFrom(n, c.log) && Only(c.m.states, key, i + 1)
    ensures StaysIdle(n, AfterSuccess(r, w, c, step, i, key, proceed))
  {
    var status := if proceed then SSuccess else SStopped;
    var c1 := c.With(c.m.AddHistory(step.name, false, status).MarkFinished(key, status, None));
    FinishedIsIdle(c.m.AddHistory(step.name, false, status), key, i + 1, status, None);
    if step.name in r.controllers {
      AfterRedirectIsTidy(r, w, c1, step, i, key, proceed, n);
    } else {
      TidySnoc(n, c.log, Ended(i));
      PersistIsTidy(r, w, c1.Emit(Ended(i)), n);
    }
  }

  lemma {:induction false} AttemptIsTidy(w: World, c: Run, step: StepDef, i: nat, key: string, attempt: nat, n: nat)
    requires TidyFrom(n, c.log)
    ensures TidyFrom(n, Attempt(w, c, step, i, key, attempt).0.log)
    decreases step.resilience.Attempts() - attempt
  {
    var (c', res) := TryOnce(w, c, step, i, key, attempt);
    TidySnoc(n, c.log, Invoked(i, key));
    if res.None? {
      AttemptIsTidy(w, c', step, i, key, attempt + 1, n);
    }
  }

  lemma ExecuteIsTidy(r: Config, w: World, c: Run, i: nat, key: string, n: nat)
    requires c.m.Valid() && i < |c.m.slip| && TidyFrom(n, c.log) && Only(c.m.states, key, i + 1)
    ensures StaysIdle(n, Execute(r, w, c, i, key))
  {
    var step := c.m.slip[i];
    var (c1, res) := Attempt(w, c, step, i, key, 1);
    AttemptIsTidy(w, c, step, i, key, 1, n);
    match res
    case Proceeds(proceed) => AfterSuccessIsTidy(r, w, c1, step, i, key, proceed, n);
    case Fails(err) => AfterFailureIsTidy(r, w, c1, step, i, key, err, n);
  }

  lemma RunningIsTidy(m: Msg, key: string, step: StepDef, i: nat)
    requires Idle(m.states) && m.cursor == i + 1
    ensures var m' := m.MarkRunning(key, step, i); Only(m'.states, key, i + 1) && Tidy(m'.ToSnapshot())
  {}

  lemma DispatchIsTidy(r: Config, w: World, c: Run, i: nat, n: nat)
    requires i < |c.m.slip| && c.m.cursor == i + 1 && TidyFrom(n, c.log) && Idle(c.m.states)
    ensures var f := Dispatch(r, w, c, i); TidyFrom(n, f.run.log) && (!f.Return? ==> Idle(f.run.m.states))
  {
    var step := c.m.slip[i];
    if step.name !in r.handlers {
      var c1 := c.With(c.m.AddError(step.name, NoHandler(step.name)));
      AbortIsTidy(r, w, c1, i, NoHandler(step.name), n);
      PersistIsTidy(r, w, c1, n);
    } else {
      var key := KeyOf(r, w, c, i);
      if r.idempotent && AlreadyDone(c.m, key) {
        PersistIsTidy(r, w, c.With(c.m.AddHistory(step.name, true, SIdempotentSkip).SetCursor(i + 1)), n);
      } else {
        RunningIsTidy(c.m, key, step, i);
        var c1 := c.With(c.m.MarkRunning(key, step, i));
        SaveIsTidy(r, w, c1, false, n);
        if Persist(r, w, c1).Next? {
          ExecuteIsTidy(r, w, Persist(r, w, c1).run, i, key, n);
        }
      }
    }
  }

  lemma EnterIsTidy(r: Config, w: World, c: Run, n: nat)
    requires c.m.cursor < |c.m.slip| && TidyFrom(n, c.log) && Idle(c.m.states)
    ensures StaysIdle(n, Enter(r, w, c))
  {
    TidySnoc(n, c.log, Entered(c.m.cursor));
    PersistIsTidy(r, w, c.Emit(Entered(c.m.cursor)), n);
  }

  lemma VisitIsTidy(r: Config, w: World, c: Run, n: nat)
    requires c.m.cursor < |c.m.slip| && TidyFrom(n, c.log) && Idle(c.m.states)
    ensures var f := Visit(r, w, c); TidyFrom(n, f.run.log) && (!f.Return? ==> Idle(f.run.m.states))
  {
    EnterIsTidy(r, w, c, n);
    var f := Enter(r, w, c);
    if f.Next? {
      DispatchIsTidy(r, w, f.run, c.m.cursor, n);
    }
  }

  lemma {:induction false} LoopIsTidy(r: Config, w: World, c: Run, n: nat)
    requires c.m.Valid() && TidyFrom(n, c.log) && Idle(c.m.states)
    ensures var (c', err) := Loop(r, w, c); TidyFrom(n, c'.log) && (err.None? ==> Idle(c'.m.states))
    decreases if w.live > c.t then w.live - c.t else 0
  {
    IterateIsTidy(r, w, c, n);
    match Iterate(r, w, c)
    case Next(c') => LoopIsTidy(r, w, c', n);
    case Break(c') => FinishIsTidy(r, w, c', n);
    case Return(_, _) =>
  }

  lemma IterateIsTidy(r: Config, w: World, c: Run, n: nat)
    requires c.m.Valid() && TidyFrom(n, c.log) && Idle(c.m.states)
    ensures var f := Iterate(r, w, c); TidyFrom(n, f.run.log) && (!f.Return? ==> Idle(f.run.m.states))
  {
    if w.Cancelled(c.t) {
      SaveIsTidy(r, w, c.Tick().With(c.m.SetStatus(Cancelled)), true, n);
    } else if c.m.cursor < |c.m.slip| {
      VisitIsTidy(r, w, c.Tick(), n);
    }
  }

  lemma FinishIsTidy(r: Config, w: World, c: Run, n: nat)
    requires TidyFrom(n, c.log) && Idle(c.m.states)
    ensures var (c', err) := Finish(r, w, c); TidyFrom(n, c'.log) && Idle(c'.m.states)
  {
    SaveIsTidy(r, w, c, false, n);
    SaveIsTidy(r, w, c.With(c.m.SetStatus(Completed)), false, n);
  }

  /** A call that starts with no running step saves only snapshots with at most one running step,
      whose index is the cursor minus one, and leaves none running when it returns no error. */
  lemma SnapshotsShowOneRunningStep(r: Config, w: World, c: Run, k: nat)
    requires c.m.Valid() && Idle(c.m.states)
    ensures var (c', err) := Process(r, w, c);
            && (|c.log| <= k < |c'.log| && c'.log[k].Saved? ==> Tidy(c'.log[k].snapshot))
            && (err.None? ==> Idle(c'.m.states))
  {
    var n := |c.log|;
    var c1 := c.With(Labelled(r, c.m));
    PersistIsTidy(r, w, c1, n);
    if Persist(r, w, c1).Next? {
      LoopIsTidy(r, w, Persist(r, w, c1).run, n);
    }
    var log := Process(r, w, c).0.log;
    if n <= k < |log| && log[k].Saved? {
      TidyAt(n, log, k);
    }
  }
}
