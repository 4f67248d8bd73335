/** What a log of saves and handler calls must satisfy, over the whole life of a message id, and
    the proof that every call of Router.Process keeps it. */
module Durability {
  import opened Prelude
  import opened Messages
  import opened RouterSpec
  import Resilience

  // ----- What a log says -----

  /** The indexes whose step ended without error. */
  function EndedSteps(log: seq<Event>): set<nat> {
    if log == [] then {}
    else EndedSteps(log[..|log| - 1]) + match log[|log| - 1] { case Ended(i) => {i} case _ => {} }
  }

  function SuccessKeys(s: Snapshot): set<string> { set k | k in s.states && s.states[k].status == SSuccess }

  /** The step keys that some saved snapshot records as a success. */
  function WonKeys(log: seq<Event>): set<string> {
    if log == [] then {}
    else WonKeys(log[..|log| - 1]) + match log[|log| - 1] { case Saved(s) => SuccessKeys(s) case _ => {} }
  }

  predicate Below(steps: set<nat>, limit: int) { forall i | i in steps :: i < limit }

  /** The trail of a snapshot is the beginning of a later one. */
  predicate Extends(s: Snapshot, later: Snapshot) {
    && s.id == later.id
    && s.history <= later.history && s.errors <= later.errors
    && (s.slip == later.slip || (s.slip == [] && s.cursor == 0))
  }

  /** Which of the guarantees apply: `forward` when all jumps go forward, `idempotent` when the
      idempotency check is on. */
  datatype Duty = Duty(forward: bool, idempotent: bool)

  predicate Allowed(d: Duty, front: seq<Event>, e: Event) {
    match e
    case Entered(_) => true
    case Saved(s) =>
      && 0 <= s.cursor <= |s.slip|
      && (d.forward ==> ForwardSlip(s.slip) && Below(EndedSteps(front), s.cursor))
      && (d.idempotent ==> WonKeys(front) <= SuccessKeys(s))
      && (Stored(front).Some? ==> Extends(Stored(front).value, s))
    case Invoked(i, key) =>
      && Stored(front).Some?
      && (d.forward ==> Below(EndedSteps(front), i))
      && (d.idempotent ==> key !in WonKeys(front))
    case Ended(i) => Stored(front).Some? && (d.forward ==> i < Stored(front).value.cursor)
  }

  predicate Good(d: Duty, log: seq<Event>) {
    log == [] || (Good(d, log[..|log| - 1]) && Allowed(d, log[..|log| - 1], log[|log| - 1]))
  }

  lemma Snoc(d: Duty, log: seq<Event>, e: Event)
    ensures Good(d, log + [e]) <==> Good(d, log) && Allowed(d, log, e)
    ensures Stored(log + [e]) == match e { case Saved(s) => Some(s) case _ => Stored(log) }
    ensures EndedSteps(log + [e]) == EndedSteps(log) + match e { case Ended(i) => {i} case _ => {} }
    ensures WonKeys(log + [e]) == WonKeys(log) + match e { case Saved(s) => SuccessKeys(s) case _ => {} }
  {
    assert (log + [e])[..|log|] == log;
  }

  // ----- Where jumps may lead -----

  /** Every failure jump that resolves leads past its step. */
  predicate ForwardSlip(slip: seq<StepDef>) {
    forall i | 0 <= i < |slip| && slip[i].resilience.Action() == Resilience.Jump ::
      var target := FindStep(slip, slip[i].resilience.onFailure.to); target.Some? ==> target.value > i
  }

  /** Every cursor controller redirects past its step. */
  ghost predicate ForwardWorld(w: World) {
    forall t, m, step, i :: w.redirect(t, m, step, i).changed ==> w.redirect(t, m, step, i).next > i
  }

  ghost predicate Applies(d: Duty, r: Config, w: World) {
    && r.durable
    && (d.idempotent ==> r.idempotent)
    && (d.forward ==> ForwardWorld(w))
  }

  // ----- The invariant of a running execution -----

  /** The message in memory is at least as far as the log says. */
  predicate UpToDate(d: Duty, m: Msg, log: seq<Event>) {
    && (d.forward ==> ForwardSlip(m.slip) && Below(EndedSteps(log), m.cursor))
    && (d.idempotent ==> forall k | k in WonKeys(log) :: AlreadyDone(m, k))
    && (Stored(log).Some? ==> Extends(Stored(log).value, m.ToSnapshot()))
  }

  predicate Inv(d: Duty, c: Run) { c.m.Valid() && Good(d, c.log) && UpToDate(d, c.m, c.log) }

  /** Step i is being executed under a key: the cursor is past it, nothing at or after it has
      ended, and no snapshot calls the key a success. */
  predicate InStep(d: Duty, c: Run, i: nat, key: string) {
    && Inv(d, c)
    && i < |c.m.slip|
    && (d.forward ==> Below(EndedSteps(c.log), i))
    && (d.idempotent ==> key !in WonKeys(c.log))
  }

  /** A save found the cursor past step i. */
  predicate SavedPast(c: Run, i: nat) { Stored(c.log).Some? && Stored(c.log).value.cursor > i }

  lemma SavedGood(d: Duty, c: Run)
    requires Inv(d, c)
    ensures var c' := c.Emit(Saved(c.m.ToSnapshot()));
            && Inv(d, c')
            && EndedSteps(c'.log) == EndedSteps(c.log)
            && WonKeys(c'.log) == WonKeys(c.log) + SuccessKeys(c.m.ToSnapshot())
            && Stored(c'.log) == Some(c.m.ToSnapshot())
  {
    Snoc(d, c.log, Saved(c.m.ToSnapshot()));
  }

  lemma SaveStateGood(d: Duty, r: Config, w: World, c: Run, background: bool)
    requires Inv(d, c)
    ensures var c' := SaveState(r, w, c, background).0;
            && Inv(d, c')
            && EndedSteps(c'.log) == EndedSteps(c.log)
            && (forall k | k in WonKeys(c'.log) :: k in WonKeys(c.log) || AlreadyDone(c.m, k))
    ensures r.durable && SaveState(r, w, c, background).1
            ==> Stored(SaveState(r, w, c, background).0.log) == Some(c.m.ToSnapshot())
  {
    SavedGood(d, c);
  }

  lemma AbortGood(d: Duty, r: Config, w: World, c: Run, i: nat, err: Fault)
    requires Inv(d, c) && (d.forward ==> Below(EndedSteps(c.log), i)) && i < |c.m.slip|
    ensures Inv(d, Abort(r, w, c, i, err).run)
  {
    SaveStateGood(d, r, w, c.With(c.m.SetCursor(i).SetStatus(Failed)), true);
  }

  /** What the router may do to the message during step i keeps it up to date. */
  lemma Carry(d: Duty, m: Msg, m': Msg, log: seq<Event>, key: string)
    requires UpToDate(d, m, log) && m'.Valid() && m'.id == m.id && m'.slip == m.slip
    requires m.history <= m'.history && SavedErrors(m.errors) <= SavedErrors(m'.errors)
    requires forall k | k in m.states && k != key :: k in m'.states && m'.states[k] == m.states[k]
    requires d.forward ==> Below(EndedSteps(log), m'.cursor)
    requires d.idempotent ==> key !in WonKeys(log) || m'.states == m.states
    ensures UpToDate(d, m', log)
  {}

  lemma InvokeGood(d: Duty, c: Run, i: nat, key: string)
    requires InStep(d, c, i, key) && SavedPast(c, i)
    ensures InStep(d, c.Emit(Invoked(i, key)), i, key) && SavedPast(c.Emit(Invoked(i, key)), i)
  {
    Snoc(d, c.log, Invoked(i, key));
  }

  function Calls(i: nat, key: string, n: nat): seq<Event> { seq(n, _ => Invoked(i, key)) }

  /** All that the attempts leave in the log are the calls of the handler. */
  lemma {:induction false} AttemptLogsCalls(w: World, c: Run, step: StepDef, i: nat, key: string, attempt: nat)
    returns (n: nat)
    ensures Attempt(w, c, step, i, key, attempt).0.log == c.log + Calls(i, key, n)
    decreases step.resilience.Attempts() - attempt
  {
    var (c', res) := TryOnce(w, c, step, i, key, attempt);
    var m := if c'.log == c.log then 0 else 1;
    assert c'.log == c.log + Calls(i, key, m);
    n := m;
    if res.None? {
      var rest := AttemptLogsCalls(w, c', step, i, key, attempt + 1);
      n := m + rest;
      assert (c.log + Calls(i, key, m)) + Calls(i, key, rest) == c.log + Calls(i, key, n);
    }
  }

  lemma {:induction false} CallsGood(d: Duty, c: Run, i: nat, key: string, n: nat)
    requires InStep(d, c, i, key) && SavedPast(c, i)
    ensures var c' := c.(log := c.log + Calls(i, key, n)); InStep(d, c', i, key) && SavedPast(c', i)
    decreases n
  {
    if n == 0 {
      assert c.log + Calls(i, key, 0) == c.log;
    } else {
      var c1 := c.(log := c.log + Calls(i, key, n - 1));
      CallsGood(d, c, i, key, n - 1);
      InvokeGood(d, c1, i, key);
      assert c1.log + [Invoked(i, key)] == c.log + Calls(i, key, n);
      assert c1.Emit(Invoked(i, key)) == c.(log := c.log + Calls(i, key, n));
    }
  }

  lemma AttemptGood(d: Duty, w: World, c: Run, step: StepDef, i: nat, key: string, attempt: nat)
    requires InStep(d, c, i, key) && SavedPast(c, i)
    ensures var c' := Attempt(w, c, step, i, key, attempt).0; InStep(d, c', i, key) && SavedPast(c', i)
  {
    var c' := Attempt(w, c, step, i, key, attempt).0;
    var n := AttemptLogsCalls(w, c, step, i, key, attempt);
    CallsGood(d, c, i, key, n);
    Carry(d, c.m, c'.m, c'.log, key);
  }

  lemma MarkedGood(d: Duty, r: Config, w: World, c: Run, i: nat, key: string, m: Msg)
    requires InStep(d, c, i, key) && Applies(d, r, w)
    requires m.Valid() && m == c.m.(history := m.history, states := m.states, cursor := m.cursor)
    requires c.m.history <= m.history
    requires forall k | k in c.m.states && k != key :: k in m.states && m.states[k] == c.m.states[k]
    requires d.forward ==> Below(EndedSteps(c.log), m.cursor)
    ensures Inv(d, Persist(r, w, c.With(m)).run)
  {
    Carry(d, c.m, m, c.log, key);
    SaveStateGood(d, r, w, c.With(m), false);
  }

  /** A jump on failure lands where the duty allows it. */
  lemma JumpGood(d: Duty, r: Config, w: World, c: Run, i: nat, key: string, err: Fault, j: nat)
    requires InStep(d, c, i, key) && Applies(d, r, w)
    requires c.m.slip[i].resilience.Action() == Resilience.Jump
    requires FindStep(c.m.slip, c.m.slip[i].resilience.onFailure.to) == Some(j)
    ensures Inv(d, Persist(r, w, c.With(c.m.AddHistory(c.m.slip[i].name, true, SJumped)
                                           .MarkFinished(key, SJumped, Some(err)).SetCursor(j))).run)
  {
    MarkedGood(d, r, w, c, i, key, c.m.AddHistory(c.m.slip[i].name, true, SJumped)
                                    .MarkFinished(key, SJumped, Some(err)).SetCursor(j));
  }

  lemma GoOnGood(d: Duty, r: Config, w: World, c: Run, i: nat, key: string, err: Fault, skipped: bool, s: StepStatus)
    requires InStep(d, c, i, key) && Applies(d, r, w) && s != SSuccess
    ensures Inv(d, Persist(r, w, c.With(c.m.AddHistory(c.m.slip[i].name, skipped, s)
                                           .MarkFinished(key, s, Some(err)))).run)
  {
    MarkedGood(d, r, w, c, i, key, c.m.AddHistory(c.m.slip[i].name, skipped, s).MarkFinished(key, s, Some(err)));
  }

  lemma OnFailureGood(d: Duty, r: Config, w: World, c: Run, i: nat, key: string, err: Fault)
    requires InStep(d, c, i, key) && Applies(d, r, w)
    requires c.m.slip[i].resilience.Action() != Resilience.Default
    ensures Inv(d, OnFailure(r, w, c, c.m.slip[i], i, key, err).run)
  {
    var step := c.m.slip[i];
    match step.resilience.Action()
    case Stop => AbortGood(d, r, w, c, i, StepFailed(step.name, err.Text()));
    case Continue => GoOnGood(d, r, w, c, i, key, err, false, SFailed);
    case Skip => GoOnGood(d, r, w, c, i, key, err, true, SSkipped);
    case Jump =>
      match FindStep(c.m.slip, step.resilience.onFailure.to) {
        case None => AbortGood(d, r, w, c, i, TargetMissing(step.name, step.resilience.onFailure.to));
        case Some(j) => JumpGood(d, r, w, c, i, key, err, j);
      }
    case Unknown(_) => AbortGood(d, r, w, c, i, UnknownAction(step.name, step.resilience.onFailure.action));
  }

  lemma ErredGood(d: Duty, c: Run, i: nat, key: string, err: Fault)
    requires InStep(d, c, i, key)
    ensures InStep(d, c.With(c.m.AddError(c.m.slip[i].name, err).MarkFinished(key, SFailed, Some(err))), i, key)
  {
    var m := c.m.AddError(c.m.slip[i].name, err).MarkFinished(key, SFailed, Some(err));
    ErrorsGrow(c.m.errors, StepError(c.m.slip[i].name, Some(err)));
    Carry(d, c.m, m, c.log, key);
  }

  lemma NotedGood(d: Duty, r: Config, w: World, c: Run, i: nat, key: string, skipped: bool, s: StepStatus)
    requires InStep(d, c, i, key) && Applies(d, r, w)
    ensures Inv(d, Persist(r, w, c.With(c.m.AddHistory(c.m.slip[i].name, skipped, s))).run)
  {
    MarkedGood(d, r, w, c, i, key, c.m.AddHistory(c.m.slip[i].name, skipped, s));
  }

  lemma AfterFailureGood(d: Duty, r: Config, w: World, c: Run, i: nat, key: string, err: Fault)
    requires InStep(d, c, i, key) && Applies(d, r, w)
    ensures Inv(d, AfterFailure(r, w, c, c.m.slip[i], i, key, err).run)
  {
    var step := c.m.slip[i];
    var c1 := c.With(c.m.AddError(step.name, err).MarkFinished(key, SFailed, Some(err)));
    ErredGood(d, c, i, key, err);
    if step.resilience.Action() != Resilience.Default {
      OnFailureGood(d, r, w, c1, i, key, err);
    } else {
      match r.policy
      case StopOnError => AbortGood(d, r, w, c1, i, StepFailed(step.name, err.Text()));
      case ContinueOnError => NotedGood(d, r, w, c1, i, key, false, SFailed);
      case SkipOnError => NotedGood(d, r, w, c1, i, key, true, SSkipped);
    }
  }

  lemma ErrorsGrow(es: seq<StepError>, e: StepError)
    ensures SavedErrors(es) <= SavedErrors(es + [e])
  {}

  lemma EndGood(d: Duty, r: Config, w: World, c: Run, i: nat, key: string, proceed: bool)
    requires InStep(d, c, i, key) && SavedPast(c, i) && (d.forward ==> c.m.cursor > i)
    ensures Inv(d, Conclude(r, w, c.Emit(Ended(i)), proceed).run)
  {
    Snoc(d, c.log, Ended(i));
    SaveStateGood(d, r, w, c.Emit(Ended(i)), false);
  }

  lemma AfterSuccessGood(d: Duty, r: Config, w: World, c: Run, i: nat, key: string, proceed: bool)
    requires InStep(d, c, i, key) && SavedPast(c, i) && Applies(d, r, w)
    requires c.m.cursor == i + 1
    ensures Inv(d, AfterSuccess(r, w, c, c.m.slip[i], i, key, proceed).run)
  {
    var step := c.m.slip[i];
    var status := if proceed then SSuccess else SStopped;
    var c1 := c.With(c.m.AddHistory(step.name, false, status).MarkFinished(key, status, None));
    Carry(d, c.m, c1.m, c.log, key);
    if step.name !in r.controllers {
      EndGood(d, r, w, c1, i, key, proceed);
    } else {
      RedirectGood(d, r, w, c1, i, key, proceed);
    }
  }

  lemma RedirectErredGood(d: Duty, r: Config, w: World, c: Run, i: nat, key: string, redirect: Redirect, text: string)
    requires InStep(d, c, i, key) && Applies(d, r, w) && c.m.cursor == i + 1
    requires d.forward && redirect.changed ==> redirect.next > i
    ensures var m := RedirectFailed(c.m, redirect, c.m.slip[i], key, text);
            && Inv(d, c.With(m)) && m.slip == c.m.slip
            && Inv(d, Redirected(c.With(m), redirect))
  {
    var m := RedirectFailed(c.m, redirect, c.m.slip[i], key, text);
    ErrorsGrow(c.m.errors, StepError(c.m.slip[i].name, Some(Raised(text))));
    Carry(d, c.m, m, c.log, key);
    Carry(d, m, Redirected(c.With(m), redirect).m, c.log, key);
  }

  lemma RedirectGood(d: Duty, r: Config, w: World, c: Run, i: nat, key: string, proceed: bool)
    requires InStep(d, c, i, key) && SavedPast(c, i) && Applies(d, r, w)
    requires c.m.cursor == i + 1
    ensures Inv(d, AfterRedirect(r, w, c, c.m.slip[i], i, key, proceed).run)
  {
    var step := c.m.slip[i];
    var redirect := w.redirect(c.t, c.m, step, i);
    match redirect.err
    case None =>
      Carry(d, c.m, Redirected(c, redirect).m, c.log, key);
      EndGood(d, r, w, Redirected(c, redirect), i, key, proceed);
    case Some(text) => RedirectErredEnds(d, r, w, c, i, key, proceed, redirect, text);
  }

  lemma RedirectErredEnds(d: Duty, r: Config, w: World, c: Run, i: nat, key: string, proceed: bool, redirect: Redirect,
                          text: string)
    requires InStep(d, c, i, key) && Applies(d, r, w) && c.m.cursor == i + 1
    requires d.forward && redirect.changed ==> redirect.next > i
    ensures var m := RedirectFailed(c.m, redirect, c.m.slip[i], key, text);
            && Inv(d, Abort(r, w, c.Tick().With(m), i, StepFailed(c.m.slip[i].name, text)).run)
            && Redirected(c.With(m), redirect).m.Valid()
            && Inv(d, Conclude(r, w, Redirected(c.With(m), redirect), proceed).run)
  {
    var m := RedirectFailed(c.m, redirect, c.m.slip[i], key, text);
    RedirectErredGood(d, r, w, c, i, key, redirect, text);
    AbortGood(d, r, w, c.Tick().With(m), i, StepFailed(c.m.slip[i].name, text));
    SaveStateGood(d, r, w, Redirected(c.With(m), redirect), false);
  }

  lemma ExecuteGood(d: Duty, r: Config, w: World, c: Run, i: nat, key: string)
    requires InStep(d, c, i, key) && SavedPast(c, i) && Applies(d, r, w) && c.m.cursor == i + 1
    ensures Inv(d, Execute(r, w, c, i, key).run)
  {
    var step := c.m.slip[i];
    var (c1, res) := Attempt(w, c, step, i, key, 1);
    AttemptGood(d, w, c, step, i, key, 1);
    match res
    case Proceeds(proceed) => AfterSuccessGood(d, r, w, c1, i, key, proceed);
    case Fails(err) => AfterFailureGood(d, r, w, c1, i, key, err);
  }

  lemma StartGood(d: Duty, r: Config, w: World, c: Run, i: nat, key: string)
    requires InStep(d, c, i, key) && Applies(d, r, w) && c.m.cursor == i + 1
    ensures var f := Persist(r, w, c.With(c.m.MarkRunning(key, c.m.slip[i], i)));
            && Inv(d, f.run)
            && (f.Next? ==> InStep(d, f.run, i, key) && SavedPast(f.run, i))
  {
    var c1 := c.With(c.m.MarkRunning(key, c.m.slip[i], i));
    Carry(d, c.m, c1.m, c.log, key);
    SaveStateGood(d, r, w, c1, false);
  }

  lemma MissingGood(d: Duty, r: Config, w: World, c: Run, i: nat)
    requires Inv(d, c) && i < |c.m.slip| && (d.forward ==> Below(EndedSteps(c.log), i))
    ensures var c1 := c.With(c.m.AddError(c.m.slip[i].name, NoHandler(c.m.slip[i].name)));
            && Inv(d, Abort(r, w, c1, i, NoHandler(c.m.slip[i].name)).run) && Inv(d, Persist(r, w, c1).run)
  {
    var err := NoHandler(c.m.slip[i].name);
    var c1 := c.With(c.m.AddError(c.m.slip[i].name, err));
    ErrorsGrow(c.m.errors, StepError(c.m.slip[i].name, Some(err)));
    Carry(d, c.m, c1.m, c.log, "");
    AbortGood(d, r, w, c1, i, err);
    SaveStateGood(d, r, w, c1, false);
  }

  lemma SkippedGood(d: Duty, r: Config, w: World, c: Run, i: nat)
    requires Inv(d, c) && i < |c.m.slip| && c.m.cursor == i + 1
    ensures Inv(d, Persist(r, w, c.With(c.m.AddHistory(c.m.slip[i].name, true, SIdempotentSkip)
                                           .SetCursor(i + 1))).run)
  {
    var c1 := c.With(c.m.AddHistory(c.m.slip[i].name, true, SIdempotentSkip).SetCursor(i + 1));
    Carry(d, c.m, c1.m, c.log, "");
    SaveStateGood(d, r, w, c1, false);
  }

  lemma DispatchGood(d: Duty, r: Config, w: World, c: Run, i: nat)
    requires Inv(d, c) && Applies(d, r, w)
    requires i < |c.m.slip| && c.m.cursor == i + 1 && (d.forward ==> Below(EndedSteps(c.log), i))
    ensures Inv(d, Dispatch(r, w, c, i).run)
  {
    var step := c.m.slip[i];
    if step.name !in r.handlers {
      MissingGood(d, r, w, c, i);
    } else {
      var key := KeyOf(r, w, c, i);
      if r.idempotent && AlreadyDone(c.m, key) {
        SkippedGood(d, r, w, c, i);
      } else {
        StartGood(d, r, w, c, i, key);
        var f := Persist(r, w, c.With(c.m.MarkRunning(key, step, i)));
        if f.Next? {
          ExecuteGood(d, r, w, f.run, i, key);
        }
      }
    }
  }

  lemma EnteredGood(d: Duty, c: Run)
    requires Inv(d, c)
    ensures var c' := c.Emit(Entered(c.m.cursor)); Inv(d, c') && EndedSteps(c'.log) == EndedSteps(c.log)
  {
    Snoc(d, c.log, Entered(c.m.cursor));
  }

  lemma EnterGood(d: Duty, r: Config, w: World, c: Run)
    requires Inv(d, c) && c.m.cursor < |c.m.slip|
    ensures var f := Enter(r, w, c);
            && Inv(d, f.run)
            && (f.Next? ==> f.run.m.cursor == c.m.cursor + 1 && f.run.m.slip == c.m.slip
                            && (d.forward ==> Below(EndedSteps(f.run.log), c.m.cursor)))
  {
    var c1 := c.Emit(Entered(c.m.cursor));
    EnteredGood(d, c);
    SaveStateGood(d, r, w, c1, false);
    var f := Persist(r, w, c1);
    if f.Next? {
      Carry(d, f.run.m, f.run.m.SetCursor(c.m.cursor + 1), f.run.log, "");
    }
  }

  lemma VisitGood(d: Duty, r: Config, w: World, c: Run)
    requires Inv(d, c) && Applies(d, r, w) && c.m.cursor < |c.m.slip|
    ensures Inv(d, Visit(r, w, c).run)
  {
    EnterGood(d, r, w, c);
    var f := Enter(r, w, c);
    if f.Next? {
      DispatchGood(d, r, w, f.run, c.m.cursor);
    }
  }

  lemma IterateGood(d: Duty, r: Config, w: World, c: Run)
    requires Inv(d, c) && Applies(d, r, w)
    ensures Inv(d, Iterate(r, w, c).run)
  {
    if w.Cancelled(c.t) {
      SaveStateGood(d, r, w, c.Tick().With(c.m.SetStatus(Cancelled)), true);
    } else if c.m.cursor < |c.m.slip| {
      VisitGood(d, r, w, c.Tick());
    }
  }

  lemma {:induction false} LoopGood(d: Duty, r: Config, w: World, c: Run)
    requires Inv(d, c) && Applies(d, r, w)
    ensures Inv(d, Loop(r, w, c).0)
    decreases if w.live > c.t then w.live - c.t else 0
  {
    IterateGood(d, r, w, c);
    var f := Iterate(r, w, c);
    match f
    case Next(c') => LoopGood(d, r, w, c');
    case Break(c') =>
      SaveStateGood(d, r, w, c'.With(c'.m.SetStatus(Completed)), false);
      SaveStateGood(d, r, w, c', false);
    case Return(_, _) =>
  }

  /** Every call of Process, in every world, keeps the guarantees of the log. */
  lemma ProcessKeepsGuarantees(d: Duty, r: Config, w: World, c: Run)
    requires Inv(d, c) && Applies(d, r, w)
    ensures Inv(d, Process(r, w, c).0)
  {
    var m := Labelled(r, c.m);
    Carry(d, c.m, m, c.log, "");
    SaveStateGood(d, r, w, c.With(m), false);
    var f := Persist(r, w, c.With(m));
    if f.Next? {
      LoopGood(d, r, w, f.run);
    }
  }
}
