/** What one turn of the router's loop leaves, read off the message, the log and the outcome: every branch that a step
    can take, in terms of the texts of its configuration. */
module Turns {
  import opened Prelude
  import opened Messages
  import opened RouterSpec
  import opened Progress
  import Resilience
  import StepKeys
  import Text

  // ----- Which step a text designates -----

  /** The first step with that id or, when no step has it, the first with that handler name. */
  predicate Designates(slip: seq<StepDef>, ref: string, j: nat) {
    && j < |slip| && !Text.Blank(ref)
    && if slip[j].id == ref then forall k | 0 <= k < j :: slip[k].id != ref
       else (forall s | s in slip :: s.id != ref) && slip[j].name == ref && forall k | 0 <= k < j :: slip[k].name != ref
  }

  lemma FindsDesignated(slip: seq<StepDef>, ref: string, j: nat)
    ensures FindStep(slip, ref) == Some(j) <==> Designates(slip, ref, j)
  {
    var byID, byName := (s: StepDef) => s.id == ref, (s: StepDef) => s.name == ref;
    if !Text.Blank(ref) && FirstIndex(slip, byID, 0).None? {
      assert forall i | 0 <= i < |slip| :: !byID(slip[i]);
    }
    if Designates(slip, ref, j) {
      assert slip[j].id == ref ==> byID(slip[j]);
      assert slip[j].name == ref ==> byName(slip[j]);
      var first, named := FirstIndex(slip, byID, 0), FirstIndex(slip, byName, 0);
      if first.Some? { assert byID(slip[first.value]) && slip[first.value] in slip; }
      if named.Some? { assert byName(slip[named.value]); }
    }
  }

  // ----- The words in which a turn is described -----

  /** The context is live and there is a step at the cursor. */
  predicate Turning(w: World, c: Run) { !w.Cancelled(c.t) && c.m.cursor < |c.m.slip| }

  predicate NoneEnded(log: seq<Event>, log': seq<Event>) {
    log <= log' && forall k | |log| <= k < |log'| :: !log'[k].Ended?
  }

  function NewEvents(c: Run, f: Flow): seq<Event>
    requires c.log <= f.run.log
  {
    f.run.log[|c.log|..]
  }

  /** The call ends with an error, the cursor back on the step and nothing noted in the history. */
  predicate GivesUp(c: Run, f: Flow, err: Fault) {
    && f.Return? && f.err == err
    && f.run.m.cursor == c.m.cursor && f.run.m.status == Failed && f.run.m.history == c.m.history
  }

  /** The slip goes on at the cursor, unless the save fails. */
  predicate MovesOn(c: Run, f: Flow, cursor: nat) {
    && f.run.m.cursor == cursor && f.run.m.status == c.m.status
    && (f.Next? || (f.Return? && f.err == SaveFailed))
  }

  predicate EntryReads(c: Run, f: Flow, name: string, skipped: bool, status: StepStatus) {
    f.run.m.history == c.m.history + [HistoryEntry(name, skipped, status, f.run.m.attempt)]
  }

  /** The state of the key, and no other, has changed. */
  predicate StateReads(c: Run, m: Msg, key: string, step: StepDef, status: StepStatus, error: string) {
    m.states == c.m.states[key := StepState(key, step.id, step.name, c.m.cursor, status,
                                            Max(c.m.StateOf(key).attempts + 1, m.attempt), error)]
  }

  predicate ErrorAdded(c: Run, f: Flow, name: string, err: Fault) {
    f.run.m.errors == c.m.errors + [StepError(name, Some(err))]
  }

  // ----- A handler that fails -----

  /** The text of on_failure.action as the router reads it. */
  function ActionText(step: StepDef): string { Text.ToLower(Text.TrimSpace(step.resilience.onFailure.action)) }

  /** What becomes of a step that ended in failure: by its on_failure action, or else by the error policy. */
  ghost predicate FailedAs(policy: ErrorPolicy, c: Run, f: Flow, step: StepDef, key: string, err: Fault) {
    var action, to, cause := ActionText(step), step.resilience.onFailure.to, err.Text();
    && ErrorAdded(c, f, step.name, err)
    && (action == "stop" ==>
          GivesUp(c, f, StepFailed(step.name, cause)) && StateReads(c, f.run.m, key, step, SFailed, cause))
    && (action == "continue" ==>
          && MovesOn(c, f, c.m.cursor + 1) && EntryReads(c, f, step.name, false, SFailed)
          && StateReads(c, f.run.m, key, step, SFailed, cause))
    && (action == "skip" ==>
          && MovesOn(c, f, c.m.cursor + 1) && EntryReads(c, f, step.name, true, SSkipped)
          && StateReads(c, f.run.m, key, step, SSkipped, cause))
    && (action == "jump" ==>
          && (forall j: nat | Designates(c.m.slip, to, j) ::
                && MovesOn(c, f, j) && EntryReads(c, f, step.name, true, SJumped)
                && StateReads(c, f.run.m, key, step, SJumped, cause))
          && ((forall j: nat :: !Designates(c.m.slip, to, j)) ==>
                GivesUp(c, f, TargetMissing(step.name, to)) && StateReads(c, f.run.m, key, step, SFailed, cause)))
    && (action !in {"", "default", "stop", "continue", "skip", "jump"} ==>
          && GivesUp(c, f, UnknownAction(step.name, step.resilience.onFailure.action))
          && StateReads(c, f.run.m, key, step, SFailed, cause))
    && (action in {"", "default"} ==> StateReads(c, f.run.m, key, step, SFailed, cause))
    && (action in {"", "default"} && policy == StopOnError ==> GivesUp(c, f, StepFailed(step.name, cause)))
    && (action in {"", "default"} && policy == ContinueOnError ==>
          MovesOn(c, f, c.m.cursor + 1) && EntryReads(c, f, step.name, false, SFailed))
    && (action in {"", "default"} && policy == SkipOnError ==>
          MovesOn(c, f, c.m.cursor + 1) && EntryReads(c, f, step.name, true, SSkipped))
  }

  // ----- A handler that succeeds -----

  /** After a success the slip goes on at the cursor, or stops, unless the save fails. */
  predicate Concludes(c: Run, f: Flow, cursor: nat, proceed: bool) {
    && f.run.m.cursor == cursor
    && (proceed ==> MovesOn(c, f, cursor))
    && (!proceed ==> if f.Break? then f.run.m.status == Stopped
                     else f.Return? && f.err == SaveFailed && f.run.m.status == c.m.status)
  }

  function Clamped(slip: seq<StepDef>, at: int): nat { if at < 0 then 0 else if at > |slip| then |slip| else at }

  /** A controller redirects the cursor, with the message as the success has left it, or fails. */
  predicate RedirectedAs(policy: ErrorPolicy, c: Run, f: Flow, step: StepDef, key: string, proceed: bool, d: Redirect) {
    var at := if d.changed then Clamped(c.m.slip, d.next) else c.m.cursor + 1;
    && f.run.m.payload == d.payload
    && match d.err
       case None =>
         && f.run.m.errors == c.m.errors && Concludes(c, f, at, proceed)
         && StateReads(c, f.run.m, key, step, if proceed then SSuccess else SStopped, "")
         && c.log <= f.run.log && Ended(c.m.cursor) in NewEvents(c, f)
       case Some(text) =>
         && ErrorAdded(c, f, step.name, Raised(text)) && StateReads(c, f.run.m, key, step, SFailed, text)
         && NoneEnded(c.log, f.run.log)
         && if policy == StopOnError then
              f.Return? && f.err == StepFailed(step.name, text) && f.run.m.cursor == c.m.cursor
              && f.run.m.status == Failed
            else Concludes(c, f, at, proceed)
  }

  /** m is the message that a controller is asked with, at time t. */
  predicate SucceededAs(r: Config, w: World, c: Run, f: Flow, step: StepDef, key: string, proceed: bool, t: nat, m: Msg)
  {
    var status := if proceed then SSuccess else SStopped;
    && EntryReads(c, f, step.name, false, status)
    && if step.name in r.controllers then
         && m.cursor == c.m.cursor + 1 && m.history == f.run.m.history && m.slip == c.m.slip && m.id == c.m.id
         && m.attempt == f.run.m.attempt && StateReads(c, m, key, step, status, "")
         && RedirectedAs(r.policy, c, f, step, key, proceed, w.redirect(t, m, step, c.m.cursor))
       else
         && f.run.m.errors == c.m.errors && Concludes(c, f, c.m.cursor + 1, proceed)
         && StateReads(c, f.run.m, key, step, status, "")
         && c.log <= f.run.log && Ended(c.m.cursor) in NewEvents(c, f)
  }

  // ----- No handler call -----

  predicate NotCalled(c: Run, f: Flow) {
    c.log <= f.run.log && forall e | e in NewEvents(c, f) :: !e.Invoked? && !e.Ended?
  }

  /** The save before the step, or the one that marks it as running, has failed. */
  predicate Unsaved(r: Config, c: Run, f: Flow) {
    && r.durable && f.Return? && f.err == SaveFailed
    && f.run.m.errors == c.m.errors && f.run.m.history == c.m.history && f.run.m.payload == c.m.payload
  }

  predicate MissedHandler(policy: ErrorPolicy, c: Run, f: Flow, name: string) {
    && ErrorAdded(c, f, name, NoHandler(name)) && f.run.m.states == c.m.states
    && (policy == StopOnError ==> GivesUp(c, f, NoHandler(name)))
    && (policy != StopOnError ==> MovesOn(c, f, c.m.cursor + 1) && f.run.m.history == c.m.history)
  }

  predicate SkippedAsDone(c: Run, f: Flow, step: StepDef, key: string) {
    && key in c.m.states && c.m.states[key].status == SSuccess
    && MovesOn(c, f, c.m.cursor + 1) && EntryReads(c, f, step.name, true, SIdempotentSkip)
    && f.run.m.states == c.m.states && f.run.m.errors == c.m.errors && f.run.m.payload == c.m.payload
  }

  // ----- The pieces of a turn -----

  /** The message when its handler has answered for the last time. */
  predicate Called(c0: Run, c: Run, key: string) {
    && c0.m.Valid() && c0.m.cursor < |c0.m.slip| && NoneEnded(c0.log, c.log)
    && c.m == c0.m.SetCursor(c0.m.cursor + 1).MarkRunning(key, c0.m.slip[c0.m.cursor], c0.m.cursor)
                 .(payload := c.m.payload, headers := c.m.headers, attempt := c.m.attempt)
  }

  /** Once or twice marked as finished, the state reads as the last mark says. */
  lemma FailedState(c0: Run, c: Run, key: string, err: Fault, status: StepStatus)
    requires Called(c0, c, key)
    ensures var step := c0.m.slip[c0.m.cursor];
            var m := c.m.AddError(step.name, err).MarkFinished(key, SFailed, Some(err));
            && StateReads(c0, m, key, step, SFailed, err.Text())
            && StateReads(c0, m.MarkFinished(key, status, Some(err)), key, step, status, err.Text())
  {
    var step := c0.m.slip[c0.m.cursor];
    OnceFinished(c0, c, c.m.AddError(step.name, err), key, err);
    var m := c.m.AddError(step.name, err).MarkFinished(key, SFailed, Some(err));
    AgainFinished(c0, m, key, step, SFailed, err.Text(), err, status);
  }

  lemma OnceFinished(c0: Run, c: Run, m: Msg, key: string, err: Fault)
    requires Called(c0, c, key) && m.states == c.m.states && m.attempt == c.m.attempt
    ensures StateReads(c0, m.MarkFinished(key, SFailed, Some(err)), key, c0.m.slip[c0.m.cursor], SFailed, err.Text())
  {
    var m' := m.MarkFinished(key, SFailed, Some(err));
    assert m'.states == c0.m.states[key := m'.states[key]];
  }

  lemma AgainFinished(c0: Run, m: Msg, key: string, step: StepDef, was: StepStatus, error: string, err: Fault,
                      status: StepStatus)
    requires StateReads(c0, m, key, step, was, error)
    ensures StateReads(c0, m.MarkFinished(key, status, Some(err)), key, step, status, err.Text())
  {
    var m' := m.MarkFinished(key, status, Some(err));
    assert m'.states == c0.m.states[key := m'.states[key]];
  }

  function StepOf(c: Run): StepDef
    requires c.m.cursor < |c.m.slip|
  {
    c.m.slip[c.m.cursor]
  }

  function Failure(r: Config, w: World, c0: Run, c: Run, key: string, err: Fault): Flow
    requires c0.m.cursor < |c0.m.slip| && c.m.Valid()
  {
    AfterFailure(r, w, c, StepOf(c0), c0.m.cursor, key, err)
  }

  lemma AbortedEffect(r: Config, w: World, c0: Run, c: Run, key: string, err: Fault)
    requires Called(c0, c, key) && var action := ActionText(StepOf(c0));
             || action == "stop" || action !in {"", "default", "stop", "continue", "skip", "jump"}
             || (action in {"", "default"} && r.policy == StopOnError)
    ensures FailedAs(r.policy, c0, Failure(r, w, c0, c, key, err), StepOf(c0), key, err)
  {
    FailedState(c0, c, key, err, SFailed);
  }

  lemma NotedEffect(r: Config, w: World, c0: Run, c: Run, key: string, err: Fault)
    requires Called(c0, c, key) && ActionText(StepOf(c0)) in {"continue", "skip"}
    ensures FailedAs(r.policy, c0, Failure(r, w, c0, c, key, err), StepOf(c0), key, err)
  {
    FailedState(c0, c, key, err, SFailed);
    FailedState(c0, c, key, err, SSkipped);
  }

  lemma PolicyEffect(r: Config, w: World, c0: Run, c: Run, key: string, err: Fault)
    requires Called(c0, c, key) && ActionText(StepOf(c0)) in {"", "default"} && r.policy != StopOnError
    ensures FailedAs(r.policy, c0, Failure(r, w, c0, c, key, err), StepOf(c0), key, err)
  {
    FailedState(c0, c, key, err, SFailed);
  }

  lemma FoundEffect(r: Config, w: World, c0: Run, c: Run, key: string, err: Fault, j: nat)
    requires Called(c0, c, key) && ActionText(StepOf(c0)) == "jump"
    requires FindStep(c0.m.slip, StepOf(c0).resilience.onFailure.to) == Some(j)
    ensures var f, step := Failure(r, w, c0, c, key, err), StepOf(c0);
            && ErrorAdded(c0, f, step.name, err) && MovesOn(c0, f, j) && EntryReads(c0, f, step.name, true, SJumped)
            && StateReads(c0, f.run.m, key, step, SJumped, err.Text())
  {
    FailedState(c0, c, key, err, SJumped);
    var step, c1 := StepOf(c0), c.With(c.m.AddError(StepOf(c0).name, err).MarkFinished(key, SFailed, Some(err)));
    assert Failure(r, w, c0, c, key, err) == OnFailure(r, w, c1, step, c0.m.cursor, key, err);
  }

  lemma LostEffect(r: Config, w: World, c0: Run, c: Run, key: string, err: Fault)
    requires Called(c0, c, key) && ActionText(StepOf(c0)) == "jump"
    requires FindStep(c0.m.slip, StepOf(c0).resilience.onFailure.to) == None
    ensures var f, step := Failure(r, w, c0, c, key, err), StepOf(c0);
            && ErrorAdded(c0, f, step.name, err)
            && GivesUp(c0, f, TargetMissing(step.name, step.resilience.onFailure.to))
            && StateReads(c0, f.run.m, key, step, SFailed, err.Text())
  {
    FailedState(c0, c, key, err, SJumped);
  }

  lemma JumpEffect(r: Config, w: World, c0: Run, c: Run, key: string, err: Fault)
    requires Called(c0, c, key) && ActionText(StepOf(c0)) == "jump"
    ensures FailedAs(r.policy, c0, Failure(r, w, c0, c, key, err), StepOf(c0), key, err)
  {
    var to := StepOf(c0).resilience.onFailure.to;
    forall j: nat ensures FindStep(c0.m.slip, to) == Some(j) <==> Designates(c0.m.slip, to, j) {
      FindsDesignated(c0.m.slip, to, j);
    }
    if FindStep(c0.m.slip, to).Some? {
      FoundEffect(r, w, c0, c, key, err, FindStep(c0.m.slip, to).value);
    } else {
      LostEffect(r, w, c0, c, key, err);
    }
  }

  lemma FailureEffect(r: Config, w: World, c0: Run, c: Run, key: string, err: Fault)
    requires Called(c0, c, key)
    ensures FailedAs(r.policy, c0, Failure(r, w, c0, c, key, err), StepOf(c0), key, err)
  {
    var action := ActionText(StepOf(c0));
    if action == "jump" {
      JumpEffect(r, w, c0, c, key, err);
    } else if action in {"continue", "skip"} {
      NotedEffect(r, w, c0, c, key, err);
    } else if action in {"", "default"} && r.policy != StopOnError {
      PolicyEffect(r, w, c0, c, key, err);
    } else {
      AbortedEffect(r, w, c0, c, key, err);
    }
  }

  // ----- Success -----

  lemma Newer(c0: Run, c: Run, e: Event, log: seq<Event>)
    requires c0.log <= c.log && c.log + [e] <= log
    ensures c0.log <= log && e in log[|c0.log|..]
  {
    assert log[|c.log|] == (c.log + [e])[|c.log|] == e;
    assert log[|c0.log|..][|c.log| - |c0.log|] == e;
  }

  lemma SucceededState(c0: Run, c: Run, key: string, proceed: bool)
    requires Called(c0, c, key)
    ensures var step, status := c0.m.slip[c0.m.cursor], if proceed then SSuccess else SStopped;
            StateReads(c0, c.m.AddHistory(step.name, false, status).MarkFinished(key, status, None), key, step, status,
                       "")
  {
    var step, status := c0.m.slip[c0.m.cursor], if proceed then SSuccess else SStopped;
    var m := c.m.AddHistory(step.name, false, status).MarkFinished(key, status, None);
    assert m.states == c0.m.states[key := m.states[key]];
  }

  lemma PlainEffect(r: Config, w: World, c0: Run, c: Run, key: string, proceed: bool)
    requires Called(c0, c, key) && StepOf(c0).name !in r.controllers
    ensures var f := AfterSuccess(r, w, c, StepOf(c0), c0.m.cursor, key, proceed);
            SucceededAs(r, w, c0, f, StepOf(c0), key, proceed, c.t, c.m)
  {
    var step, status, i := StepOf(c0), if proceed then SSuccess else SStopped, c0.m.cursor;
    SucceededState(c0, c, key, proceed);
    var c1 := c.With(c.m.AddHistory(step.name, false, status).MarkFinished(key, status, None));
    var f := AfterSuccess(r, w, c, step, i, key, proceed);
    assert c1.log + [Ended(i)] <= f.run.log;
    Newer(c0, c1, Ended(i), f.run.log);
  }

  lemma RefusedState(c0: Run, c: Run, key: string, proceed: bool, d: Redirect, text: string)
    requires Called(c0, c, key)
    ensures var step, status := c0.m.slip[c0.m.cursor], if proceed then SSuccess else SStopped;
            var m := c.m.AddHistory(step.name, false, status).MarkFinished(key, status, None);
            StateReads(c0, RedirectFailed(m, d, step, key, text), key, step, SFailed, text)
  {
    var step, status := c0.m.slip[c0.m.cursor], if proceed then SSuccess else SStopped;
    SucceededState(c0, c, key, proceed);
    var m := c.m.AddHistory(step.name, false, status).MarkFinished(key, status, None);
    AgainFinished(c0, m.(payload := d.payload).AddError(step.name, Raised(text)), key, step, status, "", Raised(text),
                  SFailed);
  }

  lemma AcceptedEffect(r: Config, w: World, c0: Run, c: Run, key: string, proceed: bool, c1: Run)
    requires Called(c0, c, key) && var step, status := StepOf(c0), if proceed then SSuccess else SStopped;
             c1 == c.With(c.m.AddHistory(step.name, false, status).MarkFinished(key, status, None))
    requires w.redirect(c1.t, c1.m, StepOf(c0), c0.m.cursor).err.None?
    ensures var step, i := StepOf(c0), c0.m.cursor;
            RedirectedAs(r.policy, c0, AfterRedirect(r, w, c1, step, i, key, proceed), step, key, proceed,
                         w.redirect(c1.t, c1.m, step, i))
  {
    SucceededState(c0, c, key, proceed);
    Newer(c0, c1, Ended(c0.m.cursor), AfterRedirect(r, w, c1, StepOf(c0), c0.m.cursor, key, proceed).run.log);
  }

  lemma RefusedEffect(r: Config, w: World, c0: Run, c: Run, key: string, proceed: bool, c1: Run)
    requires Called(c0, c, key) && var step, status := StepOf(c0), if proceed then SSuccess else SStopped;
             c1 == c.With(c.m.AddHistory(step.name, false, status).MarkFinished(key, status, None))
    requires w.redirect(c1.t, c1.m, StepOf(c0), c0.m.cursor).err.Some?
    ensures var step, i := StepOf(c0), c0.m.cursor;
            RedirectedAs(r.policy, c0, AfterRedirect(r, w, c1, step, i, key, proceed), step, key, proceed,
                         w.redirect(c1.t, c1.m, step, i))
  {
    var d := w.redirect(c1.t, c1.m, StepOf(c0), c0.m.cursor);
    RefusedState(c0, c, key, proceed, d, d.err.value);
  }

  lemma ControlledEffect(r: Config, w: World, c0: Run, c: Run, key: string, proceed: bool)
    requires Called(c0, c, key) && StepOf(c0).name in r.controllers
    ensures var step, status := StepOf(c0), if proceed then SSuccess else SStopped;
            SucceededAs(r, w, c0, AfterSuccess(r, w, c, step, c0.m.cursor, key, proceed), step, key, proceed, c.t,
                        c.m.AddHistory(step.name, false, status).MarkFinished(key, status, None))
  {
    var step, status, i := StepOf(c0), if proceed then SSuccess else SStopped, c0.m.cursor;
    SucceededState(c0, c, key, proceed);
    var c1 := c.With(c.m.AddHistory(step.name, false, status).MarkFinished(key, status, None));
    if w.redirect(c1.t, c1.m, step, i).err.None? {
      AcceptedEffect(r, w, c0, c, key, proceed, c1);
    } else {
      RefusedEffect(r, w, c0, c, key, proceed, c1);
    }
  }

  // ----- The whole turn -----

  lemma {:induction false} AttemptEndsNothing(w: World, c: Run, step: StepDef, i: nat, key: string, attempt: nat)
    ensures NoneEnded(c.log, Attempt(w, c, step, i, key, attempt).0.log)
    decreases step.resilience.Attempts() - attempt
  {
    var (c', res) := TryOnce(w, c, step, i, key, attempt);
    if res.None? {
      AttemptEndsNothing(w, c', step, i, key, attempt + 1);
    }
  }

  /** The run when the handler of the step is called for the first time: the step is marked as running. */
  predicate Begun(r: Config, c: Run, e: Run, key: string)
    requires c.m.cursor < |c.m.slip|
  {
    && c.m.Valid() && NoneEnded(c.log, e.log) && e.t > c.t
    && e.m == c.m.SetCursor(c.m.cursor + 1).MarkRunning(key, StepOf(c), c.m.cursor)
  }

  /** The key is the template, filled in with what the message and the step say. */
  ghost predicate KeyReads(r: Config, w: World, c: Run, key: string)
    requires c.m.cursor < |c.m.slip|
  {
    var workflow, step := c.m.Header("workflow"), StepOf(c);
    exists t: nat :: key == StepKeys.Key(r.template, StepKeys.Facts(
      if workflow == "" then r.workflow else workflow, c.m.id, c.m.correlationID, step.name, step.id, c.m.cursor),
      w.order(t))
  }

  /** A turn of the loop under a live context, with a step at the cursor, is one of these: a save fails before the
      handler is called; there is no handler; the key is done already; or the handler is called, with its retries,
      and its result decides. */
  ghost predicate TurnIs(r: Config, w: World, c: Run, f: Flow, key: string, e: Run, t: nat, m: Msg)
    requires c.m.cursor < |c.m.slip|
  {
    var step := StepOf(c);
    && c.log <= f.run.log && |f.run.log| > |c.log| && f.run.log[|c.log|] == Entered(c.m.cursor)
    && if NotCalled(c, f) && Unsaved(r, c, f) then true
       else if step.name !in r.handlers then NotCalled(c, f) && MissedHandler(r.policy, c, f, step.name)
       else
         && KeyReads(r, w, c, key)
         && if r.idempotent && key in c.m.states && c.m.states[key].status == SSuccess then
              NotCalled(c, f) && SkippedAsDone(c, f, step, key)
            else
              && Begun(r, c, e, key)
              && match Attempt(w, e, step, c.m.cursor, key, 1).1
                 case Fails(err) => FailedAs(r.policy, c, f, step, key, err) && NoneEnded(c.log, f.run.log)
                 case Proceeds(proceed) => SucceededAs(r, w, c, f, step, key, proceed, t, m)
  }

  predicate OnlySaves(log: seq<Event>, log': seq<Event>) {
    log <= log' && forall k | |log| <= k < |log'| :: log'[k].Saved?
  }

  lemma PersistSaves(r: Config, w: World, c: Run)
    ensures var f := Persist(r, w, c);
            && OnlySaves(c.log, f.run.log) && f.run.m == c.m && f.run.t >= c.t
            && (f.Next? || (f.Return? && f.err == SaveFailed && r.durable))
  {}

  /** The run when a step has been entered. */
  predicate Stepped(c: Run, e: Run) {
    && c.m.Valid() && c.m.cursor < |c.m.slip| && e.t > c.t && OnlySaves(c.log + [Entered(c.m.cursor)], e.log)
    && e.m == c.m.SetCursor(c.m.cursor + 1)
  }

  lemma TurnEnters(r: Config, w: World, c: Run)
    requires c.m.Valid() && Turning(w, c)
    ensures var f, e := Iterate(r, w, c), Enter(r, w, c.Tick());
            if e.Next? then Stepped(c, e.run) && f == Dispatch(r, w, e.run, c.m.cursor)
            else f == e && NotCalled(c, f) && Unsaved(r, c, f) && c.log + [Entered(c.m.cursor)] <= f.run.log
  {
    PersistSaves(r, w, c.Tick().Emit(Entered(c.m.cursor)));
    NewAreSaves(c, Enter(r, w, c.Tick()).run.log);
  }

  lemma NewAreSaves(c: Run, log: seq<Event>)
    requires OnlySaves(c.log + [Entered(c.m.cursor)], log)
    ensures c.log <= log && forall x | x in log[|c.log|..] :: !x.Invoked? && !x.Ended?
  {
    assert log[|c.log|] == Entered(c.m.cursor);
  }

  lemma MissingTurn(r: Config, w: World, c: Run, e: Run)
    requires Stepped(c, e) && StepOf(c).name !in r.handlers
    ensures var f := Dispatch(r, w, e, c.m.cursor);
            NotCalled(c, f) && MissedHandler(r.policy, c, f, StepOf(c).name)
  {
    SavesAfter(c, e, Dispatch(r, w, e, c.m.cursor).run.log);
  }

  lemma SavesAfter(c: Run, e: Run, log: seq<Event>)
    requires Stepped(c, e) && OnlySaves(e.log, log)
    ensures c.log + [Entered(c.m.cursor)] <= log && forall x | x in log[|c.log|..] :: !x.Invoked? && !x.Ended?
  {
    NewAreSaves(c, log);
  }

  lemma DoneTurn(r: Config, w: World, c: Run, e: Run)
    requires Stepped(c, e) && StepOf(c).name in r.handlers && r.idempotent
    requires AlreadyDone(c.m, KeyOf(r, w, e, c.m.cursor))
    ensures var f := Dispatch(r, w, e, c.m.cursor);
            NotCalled(c, f) && SkippedAsDone(c, f, StepOf(c), KeyOf(r, w, e, c.m.cursor))
  {
    SavesAfter(c, e, Dispatch(r, w, e, c.m.cursor).run.log);
  }

  /** The step is marked as running, and its handler is called unless the save fails. */
  lemma StartTurn(r: Config, w: World, c: Run, e: Run)
    requires Stepped(c, e) && StepOf(c).name in r.handlers
    requires !(r.idempotent && AlreadyDone(c.m, KeyOf(r, w, e, c.m.cursor)))
    ensures var f, key := Dispatch(r, w, e, c.m.cursor), KeyOf(r, w, e, c.m.cursor);
            var s := Persist(r, w, e.With(e.m.MarkRunning(key, StepOf(c), c.m.cursor)));
            if s.Next? then Begun(r, c, s.run, key) && f == Execute(r, w, s.run, c.m.cursor, key)
            else NotCalled(c, f) && Unsaved(r, c, f)
  {
    var key := KeyOf(r, w, e, c.m.cursor);
    var c1 := e.With(e.m.MarkRunning(key, StepOf(c), c.m.cursor));
    PersistSaves(r, w, c1);
    SavesAfter(c, e, Persist(r, w, c1).run.log);
  }

  lemma KeyIsRead(r: Config, w: World, c: Run, e: Run)
    requires Stepped(c, e)
    ensures KeyReads(r, w, c, KeyOf(r, w, e, c.m.cursor))
  {}

  lemma FailedCall(r: Config, w: World, c: Run, e: Run, key: string)
    requires c.m.cursor < |c.m.slip| && Begun(r, c, e, key)
    requires Attempt(w, e, StepOf(c), c.m.cursor, key, 1).1.Fails?
    ensures var f := Execute(r, w, e, c.m.cursor, key);
            && FailedAs(r.policy, c, f, StepOf(c), key, Attempt(w, e, StepOf(c), c.m.cursor, key, 1).1.err)
            && NoneEnded(c.log, f.run.log)
  {
    var (c1, res) := Attempt(w, e, StepOf(c), c.m.cursor, key, 1);
    AttemptEndsNothing(w, e, StepOf(c), c.m.cursor, key, 1);
    FailureEffect(r, w, c, c1, key, res.err);
    FailureEndsNothing(r, w, c1, StepOf(c), c.m.cursor, key, res.err);
  }

  lemma OnFailureSaves(r: Config, w: World, c: Run, step: StepDef, i: nat, key: string, err: Fault)
    requires c.m.Valid() && step.resilience.Action() != Resilience.Default
    ensures OnlySaves(c.log, OnFailure(r, w, c, step, i, key, err).run.log)
  {
    var f := OnFailure(r, w, c, step, i, key, err);
    match step.resilience.Action()
    case Stop =>
    case Continue =>
      PersistSaves(r, w, c.With(c.m.AddHistory(step.name, false, SFailed).MarkFinished(key, SFailed, Some(err))));
    case Skip =>
      PersistSaves(r, w, c.With(c.m.AddHistory(step.name, true, SSkipped).MarkFinished(key, SSkipped, Some(err))));
    case Jump =>
      var to := FindStep(c.m.slip, step.resilience.onFailure.to);
      if to.Some? {
        PersistSaves(r, w, c.With(c.m.AddHistory(step.name, true, SJumped).MarkFinished(key, SJumped, Some(err))
                                     .SetCursor(to.value)));
      }
    case Unknown(_) =>
  }

  lemma FailureEndsNothing(r: Config, w: World, c: Run, step: StepDef, i: nat, key: string, err: Fault)
    requires c.m.Valid()
    ensures NoneEnded(c.log, AfterFailure(r, w, c, step, i, key, err).run.log)
  {
    var c1 := c.With(c.m.AddError(step.name, err).MarkFinished(key, SFailed, Some(err)));
    if step.resilience.Action() != Resilience.Default {
      OnFailureSaves(r, w, c1, step, i, key, err);
    } else if r.policy != StopOnError {
      PersistSaves(r, w, c1.With(c1.m.AddHistory(step.name, false, SFailed)));
      PersistSaves(r, w, c1.With(c1.m.AddHistory(step.name, true, SSkipped)));
    }
  }

  function Succeeded(c: Run, name: string, key: string, proceed: bool): Msg {
    var status := if proceed then SSuccess else SStopped;
    c.m.AddHistory(name, false, status).MarkFinished(key, status, None)
  }

  lemma SucceededCall(r: Config, w: World, c: Run, e: Run, key: string)
    requires c.m.cursor < |c.m.slip| && Begun(r, c, e, key)
    requires Attempt(w, e, StepOf(c), c.m.cursor, key, 1).1.Proceeds?
    ensures var (c1, res) := Attempt(w, e, StepOf(c), c.m.cursor, key, 1);
            SucceededAs(r, w, c, Execute(r, w, e, c.m.cursor, key), StepOf(c), key, res.proceed, c1.t,
                        Succeeded(c1, StepOf(c).name, key, res.proceed))
  {
    var (c1, res) := Attempt(w, e, StepOf(c), c.m.cursor, key, 1);
    AttemptEndsNothing(w, e, StepOf(c), c.m.cursor, key, 1);
    if StepOf(c).name in r.controllers {
      ControlledEffect(r, w, c, c1, key, res.proceed);
    } else {
      PlainEffect(r, w, c, c1, key, res.proceed);
    }
  }

  lemma CallTurn(r: Config, w: World, c: Run, e: Run, key: string) returns (t: nat, m: Msg)
    requires c.m.cursor < |c.m.slip| && Begun(r, c, e, key)
    ensures var f := Execute(r, w, e, c.m.cursor, key);
            match Attempt(w, e, StepOf(c), c.m.cursor, key, 1).1
            case Fails(err) => FailedAs(r.policy, c, f, StepOf(c), key, err) && NoneEnded(c.log, f.run.log)
            case Proceeds(proceed) => SucceededAs(r, w, c, f, StepOf(c), key, proceed, t, m)
  {
    var (c1, res) := Attempt(w, e, StepOf(c), c.m.cursor, key, 1);
    t, m := c1.t, c1.m;
    match res
    case Fails(_) =>
      FailedCall(r, w, c, e, key);
    case Proceeds(proceed) =>
      SucceededCall(r, w, c, e, key);
      m := Succeeded(c1, StepOf(c).name, key, proceed);
  }

  lemma CallIsFirst(r: Config, w: World, c: Run, e1: Run, e: Run, key: string)
    requires Stepped(c, e1) && e1.log <= e.log && e.m.Valid() && c.m.cursor < |e.m.slip|
    ensures var f := Execute(r, w, e, c.m.cursor, key); c.log + [Entered(c.m.cursor)] <= f.run.log
  {}

  /** A step that was entered, and that has a handler. */
  lemma HandledTurn(r: Config, w: World, c: Run, e1: Run) returns (key: string, e: Run, t: nat, m: Msg)
    requires Stepped(c, e1) && StepOf(c).name in r.handlers
    ensures TurnIs(r, w, c, Dispatch(r, w, e1, c.m.cursor), key, e, t, m)
  {
    key, e, t, m := KeyOf(r, w, e1, c.m.cursor), c, c.t, c.m;
    KeyIsRead(r, w, c, e1);
    SavesAfter(c, e1, e1.log);
    if r.idempotent && AlreadyDone(c.m, key) {
      DoneTurn(r, w, c, e1);
    } else {
      StartTurn(r, w, c, e1);
      var s := Persist(r, w, e1.With(e1.m.MarkRunning(key, StepOf(c), c.m.cursor)));
      if s.Next? {
        e := s.run;
        t, m := CallTurn(r, w, c, e, key);
        CallIsFirst(r, w, c, e1, e, key);
      }
    }
  }

  lemma WhatATurnDoes(r: Config, w: World, c: Run) returns (key: string, e: Run, t: nat, m: Msg)
    requires c.m.Valid() && Turning(w, c)
    ensures TurnIs(r, w, c, Iterate(r, w, c), key, e, t, m)
  {
    key, e, t, m := "", c, c.t, c.m;
    TurnEnters(r, w, c);
    var c1 := Enter(r, w, c.Tick());
    if c1.Next? {
      if StepOf(c).name in r.handlers {
        key, e, t, m := HandledTurn(r, w, c, c1.run);
      } else {
        SavesAfter(c, c1.run, c1.run.log);
        MissingTurn(r, w, c, c1.run);
      }
    }
  }

  // ----- The step after this one -----

  lemma {:induction false} VisitsGrow(log: seq<Event>, log': seq<Event>)
    requires log <= log'
    ensures Visits(log) <= Visits(log')
    decreases |log'|
  {
    if |log| == |log'| {
      assert log == log';
    } else {
      VisitsGrow(log, log'[..|log'| - 1]);
    }
  }

  /** The steps that are entered from here on. */
  function Ahead(r: Config, w: World, c: Run): (vs: seq<nat>)
    requires c.m.Valid()
  {
    VisitsGrow(c.log, Loop(r, w, c).0.log);
    Visits(Loop(r, w, c).0.log)[|Visits(c.log)|..]
  }

  /** A turn enters the step at the cursor. If it goes on, and the context is still live, the next step to be entered
      is the one at its cursor; otherwise no step is. */
  lemma NextIsAtTheCursor(r: Config, w: World, c: Run)
    requires c.m.Valid() && Turning(w, c)
    ensures var f, vs := Iterate(r, w, c), Ahead(r, w, c);
            && vs != [] && vs[0] == c.m.cursor
            && (|vs| > 1 <==> f.Next? && Turning(w, f.run))
            && (|vs| > 1 ==> vs[1] == f.run.m.cursor)
  {
    var f, all := Iterate(r, w, c), Visits(Loop(r, w, c).0.log);
    LoopGoesOn(r, w, c);
    if f.Next? && Turning(w, f.run) {
      TwoMore(Visits(c.log), c.m.cursor, f.run.m.cursor, all);
    } else {
      assert all[|Visits(c.log)|..] == [c.m.cursor];
    }
  }

  lemma TwoMore(vs: seq<nat>, i: nat, j: nat, all: seq<nat>)
    requires vs + [i] + [j] <= all
    ensures vs <= all && |all[|vs|..]| > 1 && all[|vs|..][0] == i && all[|vs|..][1] == j
  {
    assert all[|vs|] == (vs + [i] + [j])[|vs|] && all[|vs| + 1] == (vs + [i] + [j])[|vs| + 1];
  }

  lemma LoopGoesOn(r: Config, w: World, c: Run)
    requires c.m.Valid() && Turning(w, c)
    ensures var f, all := Iterate(r, w, c), Visits(Loop(r, w, c).0.log);
            if f.Next? && Turning(w, f.run) then Visits(c.log) + [c.m.cursor] + [f.run.m.cursor] <= all
            else all == Visits(c.log) + [c.m.cursor]
  {
    var f := Iterate(r, w, c);
    IterateVisits(r, w, c);
    match f
    case Next(c') =>
      LoopStarts(r, w, c');
    case Break(c') =>
      FinishVisitsNothing(r, w, c');
    case Return(_, _) =>
  }

  lemma LoopStarts(r: Config, w: World, c: Run)
    requires c.m.Valid()
    ensures if Turning(w, c) then Visits(c.log) + [c.m.cursor] <= Visits(Loop(r, w, c).0.log)
            else Visits(Loop(r, w, c).0.log) == Visits(c.log)
  {
    var f := Iterate(r, w, c);
    IterateVisits(r, w, c);
    match f
    case Next(c') =>
      VisitsGrow(f.run.log, Loop(r, w, c').0.log);
    case Break(c') =>
      FinishVisitsNothing(r, w, c');
    case Return(_, _) =>
  }

  ghost predicate GoesOnTo(r: Config, w: World, c: Run, c': Run) { c.m.Valid() && Iterate(r, w, c) == Next(c') }

  lemma LoopsOn(r: Config, w: World, c: Run, c': Run)
    requires GoesOnTo(r, w, c, c')
    ensures c'.m.Valid() && Loop(r, w, c) == Loop(r, w, c')
  {}

  /** Where turns of one loop begin, one after the other. */
  ghost predicate InTurn(r: Config, w: World, runs: seq<Run>) {
    && runs != [] && runs[0].m.Valid()
    && forall k, l | 0 <= k < |runs| && l == k + 1 < |runs| :: GoesOnTo(r, w, runs[k], runs[l])
  }

  lemma {:induction false} SameEnd(r: Config, w: World, runs: seq<Run>)
    requires InTurn(r, w, runs)
    ensures runs[|runs| - 1].m.Valid() && Loop(r, w, runs[0]) == Loop(r, w, runs[|runs| - 1])
    decreases |runs|
  {
    if |runs| > 1 {
      var last := |runs| - 1;
      SameEnd(r, w, runs[..last]);
      LoopsOn(r, w, runs[last - 1], runs[last]);
    }
  }

  /** These are turns of the call: the first begins after the first save. */
  ghost predicate TurnsOfCall(r: Config, w: World, c: Run, runs: seq<Run>) {
    c.m.Valid() && InTurn(r, w, runs) && Persist(r, w, c.With(Labelled(r, c.m))) == Next(runs[0])
  }

  lemma LoopsFromThere(r: Config, w: World, c: Run, runs: seq<Run>)
    requires TurnsOfCall(r, w, c, runs)
    ensures var c' := runs[|runs| - 1]; c'.m.Valid() && Process(r, w, c) == Loop(r, w, c')
  {
    SameEnd(r, w, runs);
  }

  lemma LoopEntersAhead(r: Config, w: World, c: Run)
    requires c.m.Valid()
    ensures Visits(Loop(r, w, c).0.log) == Visits(c.log) + Ahead(r, w, c)
  {
    VisitsGrow(c.log, Loop(r, w, c).0.log);
  }

  /** The call enters the steps that it has entered so far, and then those ahead. */
  lemma EntersAhead(r: Config, w: World, c: Run, runs: seq<Run>)
    requires TurnsOfCall(r, w, c, runs)
    ensures var c' := runs[|runs| - 1];
            && c'.m.Valid() && Process(r, w, c) == Loop(r, w, c')
            && Visits(Process(r, w, c).0.log) == Visits(c'.log) + Ahead(r, w, c')
  {
    LoopsFromThere(r, w, c, runs);
    LoopEntersAhead(r, w, runs[|runs| - 1]);
  }

  /** The handler of the step at the cursor was called and ended in failure. */
  predicate HandlerFailed(r: Config, c: Run, f: Flow)
    requires c.m.cursor < |c.m.slip|
  {
    && StepOf(c).name in r.handlers && |f.run.m.errors| > |c.m.errors|
    && var history := f.run.m.history;
      !(|history| > |c.m.history| && history[|history| - 1].status in {SSuccess, SStopped})
  }

  /** What a failed step leaves, and where the slip goes from there: by its on_failure action, or else by the policy. */
  lemma FailedStepLeadsOn(r: Config, w: World, c: Run) returns (key: string, err: Fault)
    requires c.m.Valid() && Turning(w, c) && HandlerFailed(r, c, Iterate(r, w, c))
    ensures FailedAs(r.policy, c, Iterate(r, w, c), StepOf(c), key, err) && KeyReads(r, w, c, key)
    ensures var vs, action, to := Ahead(r, w, c), ActionText(StepOf(c)), StepOf(c).resilience.onFailure.to;
            && vs != [] && vs[0] == c.m.cursor
            && (|vs| > 1 && action == "jump" ==> Designates(c.m.slip, to, vs[1]))
            && (|vs| > 1 && action != "jump" ==> vs[1] == c.m.cursor + 1)
            && (|vs| > 1 ==> action in {"continue", "skip", "jump"}
                             || (action in {"", "default"} && r.policy != StopOnError))
  {
    key, err := FailedStepReads(r, w, c);
    NextIsAtTheCursor(r, w, c);
    if Iterate(r, w, c).Next? {
      FailedStepGoes(r.policy, c, Iterate(r, w, c), key, err);
    }
  }

  lemma FailedStepReads(r: Config, w: World, c: Run) returns (key: string, err: Fault)
    requires c.m.Valid() && Turning(w, c) && HandlerFailed(r, c, Iterate(r, w, c))
    ensures FailedAs(r.policy, c, Iterate(r, w, c), StepOf(c), key, err) && KeyReads(r, w, c, key)
  {
    var e, t, m;
    key, e, t, m := WhatATurnDoes(r, w, c);
    err := Attempt(w, e, StepOf(c), c.m.cursor, key, 1).1.err;
  }

  lemma FailedStepGoes(policy: ErrorPolicy, c: Run, f: Flow, key: string, err: Fault)
    requires c.m.cursor < |c.m.slip| && FailedAs(policy, c, f, StepOf(c), key, err) && f.Next?
    ensures var action := ActionText(StepOf(c));
            && (action == "jump" ==> Designates(c.m.slip, StepOf(c).resilience.onFailure.to, f.run.m.cursor))
            && (action != "jump" ==> f.run.m.cursor == c.m.cursor + 1)
            && (action in {"continue", "skip", "jump"} || (action in {"", "default"} && policy != StopOnError))
  {}

  // ----- The beginning and the end of a call -----

  /** The header is filled in from the configuration, if the message has none. */
  predicate HeaderReads(m: Msg, m': Msg, name: string, configured: string) {
    m'.Header(name) == if m.Header(name) == "" && configured != "" then configured else m.Header(name)
  }

  /** A call begins with a save of the message, running and labelled with the workflow and its version; nothing else
      about it is changed. The loop goes on from there unless that save fails. */
  lemma CallBegins(r: Config, w: World, c: Run) returns (c1: Run)
    requires c.m.Valid()
    ensures c1.m == c.m.(status := Running, headers := c1.m.headers) && OnlySaves(c.log, c1.log)
    ensures HeaderReads(c.m, c1.m, "workflow", r.workflow) && HeaderReads(c.m, c1.m, "workflow_version", r.version)
    ensures forall name | name !in {"workflow", "workflow_version"} :: c1.m.Header(name) == c.m.Header(name)
    ensures forall k | |c.log| <= k < |c1.log| :: c1.log[k] == Saved(c1.m.ToSnapshot())
    ensures || Process(r, w, c) == Loop(r, w, c1)
            || (r.durable && Process(r, w, c) == (c1, Some(SaveFailed)))
  {
    c1 := Persist(r, w, c.With(Labelled(r, c.m))).run;
  }

  /** A turn under a cancelled context only sets the status, saves, and ends the call. */
  lemma CancelledTurn(r: Config, w: World, c: Run)
    requires c.m.Valid() && w.Cancelled(c.t)
    ensures var (c', err) := Loop(r, w, c);
            && err == Some(ContextCancelled) && c'.m == c.m.(status := Cancelled) && OnlySaves(c.log, c'.log)
            && forall k | |c.log| <= k < |c'.log| :: c'.log[k] == Saved(c'.m.ToSnapshot())
  {}

  /** At the end of the slip the message is completed, unless it was stopped or failed before, and saved. */
  lemma EndOfSlip(r: Config, w: World, c: Run)
    requires !w.Cancelled(c.t) && c.m.cursor == |c.m.slip|
    ensures var (c', err) := Loop(r, w, c);
            && c'.m == c.m.(status := if c.m.status in {Running, Blank} then Completed else c.m.status)
            && (err == None || (r.durable && err == Some(SaveFailed))) && OnlySaves(c.log, c'.log)
  {}

  /** A save reaches the store unless it is lost or, in the foreground, the context is cancelled; it succeeds when the
      store also acknowledges it. Without a store every save succeeds. */
  lemma SavesExactly(r: Config, w: World, c: Run, background: bool)
    ensures var (c', ok) := SaveState(r, w, c, background);
            var sent := r.durable && (background || !w.Cancelled(c.t));
            && c'.log == (if sent && w.save(c.t) != Loses then c.log + [Saved(c.m.ToSnapshot())] else c.log)
            && (ok <==> !r.durable || (sent && w.save(c.t) == Stores))
  {}

  /** The saves that a call makes after it was cancelled, or when it gives up, are background ones. */
  lemma LastSavesAreMade(r: Config, w: World, c: Run, i: nat, err: Fault)
    requires c.m.Valid() && r.durable && w.save(c.t) == Stores
    ensures Abort(r, w, c, i, err).run.log == c.log + [Saved(c.m.SetCursor(i).SetStatus(Failed).ToSnapshot())]
    ensures w.Cancelled(c.t) && w.save(c.t + 1) == Stores ==>
              Iterate(r, w, c).run.log == c.log + [Saved(c.m.SetStatus(Cancelled).ToSnapshot())]
  {}
}
