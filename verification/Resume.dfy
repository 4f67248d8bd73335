/** Interrupted execution against uninterrupted execution, for a store whose saves may fail and workers
    that may crash at any point: what the stored snapshot still leads to. */
module Resume {
  import opened Prelude
  import opened Json
  import opened Messages
  import opened RouterSpec
  import opened Delivery
  import opened IdealRuns
  import Durability
  import Progress
  import Resilience

  // ----- The message in memory -----

  /** The rest of the ideal run from here is what the goal still wants. */
  ghost predicate Leads(k: Course, m: Msg, done: seq<nat>)
    requires ForwardControl(k.g.ctl)
  {
    && m.Valid() && m.slip == k.g.slip && m.id == k.g.id && k.base <= m.cursor
    && RunningBelow(m.states, k.base) && AllBelow(done, m.cursor) && !StoppedLast(m.history)
    && (k.g.r.idempotent ==> WorkflowIn(k.g.r, m.headers) == k.g.workflow && KeysBelow(k.g, m.states, m.cursor))
    && Ideal(k.g, m.cursor, m.payload).After(done) == k.goal
  }

  lemma LeadsFits(k: Course, m: Msg, done: seq<nat>)
    requires ForwardControl(k.g.ctl) && Leads(k, m, done)
    ensures Fits(k, done, m.ToSnapshot())
  {}

  /** The message while step i is visited, with p the payload before the step and the state under the
      key of the step left open. */
  ghost predicate Visits(k: Course, i: nat, p: Object, key: string, m: Msg, done: seq<nat>)
    requires ForwardControl(k.g.ctl)
  {
    && i < |k.g.slip| && m.cursor == i + 1
    && (k.g.r.idempotent ==> KeyFor(k.g, key, i))
    && Leads(k, m.(cursor := i, payload := p, states := m.states - {key}), done)
  }

  lemma VisitsStart(k: Course, m: Msg, key: string, done: seq<nat>)
    requires ForwardControl(k.g.ctl) && Leads(k, m, done) && m.cursor < |k.g.slip|
    requires k.g.r.idempotent ==> KeyFor(k.g, key, m.cursor)
    ensures Visits(k, m.cursor, m.payload, key, m.SetCursor(m.cursor + 1), done)
  {}

  lemma BeforeIsAll(done: seq<nat>, i: nat)
    requires AllBelow(done, i)
    ensures Before(done, i) == done && Before(done + [i], i) == done && AllBelow(done + [i], i + 1)
  {
    assert done != [] ==> done[|done| - 1] in done;
    assert (done + [i])[..|done|] == done;
  }

  /** Once the step is shown as running, the snapshot fits before and after the step has ended. */
  lemma RunningFits(k: Course, i: nat, key: string, m: Msg, done: seq<nat>, step: StepDef, ended: seq<nat>)
    requires ForwardControl(k.g.ctl) && Visits(k, i, m.payload, key, m, done)
    requires ended == done || ended == done + [i]
    ensures Fits(k, ended, m.MarkRunning(key, step, i).ToSnapshot())
  {
    BeforeIsAll(done, i);
    var s := m.MarkRunning(key, step, i).ToSnapshot();
    assert key in s.states && s.states[key].status == SRunning;
    assert forall x | x in s.states && x != key :: x in m.states - {key};
    if k.g.r.idempotent {
      KeysStayBelow(k.g, m.states - {key}, s.states, key, i);
    }
  }

  /** Under another key than the recorded ones the limit may grow. */
  lemma KeysStayBelow(g: Setting, states: map<string, StepState>, states': map<string, StepState>, key: string, i: nat)
    requires KeysBelow(g, states, i)
    requires forall x | x in states' && x != key :: x in states && states[x] == states'[x]
    requires key in states' && states'[key].status == SSuccess ==> KeyFor(g, key, i)
    ensures KeysBelow(g, states', i + 1)
  {
    forall x | x in states' && states'[x].status == SSuccess ensures KeyBelow(g, x, i + 1) {
      if x != key {
        assert KeyBelow(g, x, i);
      }
    }
  }

  lemma FailedStates(g: Setting, states: map<string, StepState>, states': map<string, StepState>, key: string,
                     base: int, limit: int)
    requires key in states' && states'[key].status == SFailed && states == states' - {key}
    ensures RunningBelow(states, base) ==> RunningBelow(states', base)
    ensures KeysBelow(g, states, limit) ==> KeysBelow(g, states', limit)
  {
    assert forall x | x in states' && x != key :: x in states && states[x] == states'[x];
  }

  /** A failed step is left with the cursor on it. */
  lemma FailedLeads(k: Course, i: nat, key: string, m: Msg, done: seq<nat>, name: string, err: Fault)
    requires ForwardControl(k.g.ctl) && Visits(k, i, m.payload, key, m, done)
    ensures Leads(k, m.AddError(name, err).MarkFinished(key, SFailed, Some(err)).SetCursor(i).SetStatus(Failed), done)
  {
    var states := m.MarkFinished(key, SFailed, Some(err)).states;
    assert m.states - {key} == states - {key};
    FailedStates(k.g, m.states - {key}, states, key, k.base, i);
  }

  /** No save with a background context is lost. */
  ghost predicate KeepsSaves(k: Course, w: World) { k.g.r.durable && forall t :: !w.save(t).Loses? }

  /** What is stored shows no step of this delivery as running, and no stop. */
  predicate AtRest(k: Course, log: seq<Event>) {
    match Stored(log)
    case None => false
    case Some(s) => RunningBelow(s.states, k.base) && !StoppedLast(s.history)
  }

  lemma AbortFits(k: Course, w: World, c: Run, i: nat, err: Fault, done: seq<nat>)
    requires ForwardControl(k.g.ctl) && Always(k, c.log) && done == EndedSeq(c.log) && c.m.Valid()
    requires Leads(k, c.m.SetCursor(i).SetStatus(Failed), done)
    ensures var log := Abort(k.g.r, w, c, i, err).run.log; Always(k, log) && (KeepsSaves(k, w) ==> AtRest(k, log))
  {
    var m := c.m.SetCursor(i).SetStatus(Failed);
    LeadsFits(k, m, done);
    SaveFits(k, w, c.With(m), true, done, m.ToSnapshot());
  }

  /** The message has come to the goal. */
  ghost predicate Final(k: Course, m: Msg, done: seq<nat>)
    requires ForwardControl(k.g.ctl)
  {
    Fits(k, done, m.ToSnapshot()) && End(m.payload, m.cursor, done) == k.goal
  }

  lemma FinalAtEnd(k: Course, m: Msg, done: seq<nat>)
    requires ForwardControl(k.g.ctl) && Leads(k, m, done) && m.cursor >= |m.slip|
    ensures Final(k, m, done)
  {
    LeadsFits(k, m, done);
    assert done + [] == done;
  }

  /** A step that has ended moves on, or stops at the goal. */
  lemma EndedLeads(k: Course, i: nat, p: Object, key: string, m: Msg, m': Msg, done: seq<nat>, move: Move)
    requires ForwardControl(k.g.ctl) && Visits(k, i, p, key, m, done) && move == Moved(k.g, i, p)
    requires var status := if move.proceed then SSuccess else SStopped;
             && m' == m.(payload := move.payload, cursor := move.cursor, history := m'.history, states := m'.states)
             && m'.history != [] && m'.history[|m'.history| - 1].status == status
             && key in m'.states && m'.states == m.states[key := m'.states[key]] && m'.states[key].status == status
    ensures if move.proceed then Leads(k, m', done + [i]) else Final(k, m', done + [i])
  {
    BeforeIsAll(done, i);
    assert forall x | x in m'.states && x != key :: x in m.states - {key};
    GoalAfterStep(k, i, p, done, move);
    if k.g.r.idempotent {
      KeysStayBelow(k.g, m.states - {key}, m'.states, key, i);
      KeysBelowMore(k.g, m'.states, i + 1, move.cursor);
    }
  }

  lemma KeysBelowMore(g: Setting, states: map<string, StepState>, limit: nat, more: nat)
    requires KeysBelow(g, states, limit) && limit <= more
    ensures KeysBelow(g, states, more)
  {
    forall x | x in states && states[x].status == SSuccess ensures KeyBelow(g, x, more) {
      assert KeyBelow(g, x, limit);
    }
  }

  lemma GoalAfterStep(k: Course, i: nat, p: Object, done: seq<nat>, move: Move)
    requires ForwardControl(k.g.ctl) && i < |k.g.slip| && Ideal(k.g, i, p).After(done) == k.goal
    requires move == Moved(k.g, i, p)
    ensures k.goal == if move.proceed then Ideal(k.g, move.cursor, move.payload).After(done + [i])
                      else End(move.payload, move.cursor, done + [i])
  {
    AfterTwice(Rest(k.g, i, p), done, [i]);
    assert done + [i] + [] == done + [i];
  }

  // ----- A step -----

  /** One attempt does what the ideal effect says, or nothing. */
  predicate TriesFaithfully(w: World, g: Setting, c: Run, step: StepDef, i: nat, key: string, attempt: nat) {
    var (c', res) := TryOnce(w, c, step, i, key, attempt);
    && (if res.Some? && res.value.Proceeds? then (res.value.proceed, c'.m.payload) == g.eff(step, c.m.payload)
        else c'.m.payload == c.m.payload)
    && (g.r.idempotent ==> WorkflowIn(g.r, c'.m.headers) == WorkflowIn(g.r, c.m.headers))
  }

  /** What the handler answers is the ideal effect, or nothing. */
  predicate AnswersFaithfully(w: World, g: Setting, t: nat, step: StepDef, p: Object, h: Headers) {
    var a := w.handle(t, step, p, h);
    && (if a.Handled? then (a.proceed, a.payload) == g.eff(step, p) else a.payload == p)
    && (g.r.idempotent ==> WorkflowIn(g.r, a.headers) == WorkflowIn(g.r, h))
  }

  lemma TryFollowsHandle(w: World, g: Setting, c: Run, step: StepDef, i: nat, key: string, attempt: nat)
    requires AnswersFaithfully(w, g, c.t + 1, step, c.m.payload, c.m.headers)
    ensures TriesFaithfully(w, g, c, step, i, key, attempt)
  {
    if !WaitAbandoned(w, c, step, attempt) {
      var a := w.handle(c.t + 1, step, c.m.payload, c.m.headers);
      assert a.Handled? ==> TryOnce(w, c, step, i, key, attempt).1 == Some(Proceeds(a.proceed));
    }
  }

  lemma {:induction false} AttemptsAgree(w: World, g: Setting, c: Run, step: StepDef, i: nat, key: string, attempt: nat)
    requires forall t, p, h :: AnswersFaithfully(w, g, t, step, p, h)
    ensures var (c', res) := Attempt(w, c, step, i, key, attempt);
            && (res.Proceeds? ==> (res.proceed, c'.m.payload) == g.eff(step, c.m.payload))
            && (res.Fails? ==> c'.m.payload == c.m.payload)
            && (g.r.idempotent ==> WorkflowIn(g.r, c'.m.headers) == WorkflowIn(g.r, c.m.headers))
    decreases step.resilience.Attempts() - attempt
  {
    var (c', res) := TryOnce(w, c, step, i, key, attempt);
    TryFollowsHandle(w, g, c, step, i, key, attempt);
    if res.None? {
      AttemptsAgree(w, g, c', step, i, key, attempt + 1);
    }
  }

  lemma AllAnswerFaithfully(w: World, g: Setting, step: StepDef)
    requires Faithful(w, g)
    ensures forall t, p, h :: AnswersFaithfully(w, g, t, step, p, h)
  {}

  /** Calls of a handler are no news for a log. */
  lemma {:induction false} CallsAreQuiet(k: Course, log: seq<Event>, i: nat, key: string, n: nat)
    requires ForwardControl(k.g.ctl) && Always(k, log)
    ensures var log' := log + Durability.Calls(i, key, n);
            Always(k, log') && EndedSeq(log') == EndedSeq(log) && Stored(log') == Stored(log)
    decreases n
  {
    CallsGrow(log, i, key, n);
    if n > 0 {
      CallsAreQuiet(k, log, i, key, n - 1);
      AlwaysQuiet(k, log + Durability.Calls(i, key, n - 1), Invoked(i, key));
    }
  }

  lemma CallsGrow(log: seq<Event>, i: nat, key: string, n: nat)
    ensures log + Durability.Calls(i, key, n)
            == if n == 0 then log else log + Durability.Calls(i, key, n - 1) + [Invoked(i, key)]
  {}

  lemma VisitsAfterAttempt(k: Course, i: nat, key: string, m: Msg, m': Msg, done: seq<nat>)
    requires ForwardControl(k.g.ctl) && Visits(k, i, m.payload, key, m, done)
    requires m' == m.(payload := m'.payload, headers := m'.headers, attempt := m'.attempt, states := m'.states)
    requires m'.states - {key} == m.states - {key}
    requires k.g.r.idempotent ==> WorkflowIn(k.g.r, m'.headers) == WorkflowIn(k.g.r, m.headers)
    ensures Visits(k, i, m.payload, key, m', done)
  {}

  /** The snapshot of the running step is stored, and fits whether or not the step has ended. */
  ghost predicate Underway(k: Course, i: nat, log: seq<Event>, done: seq<nat>)
    requires ForwardControl(k.g.ctl)
  {
    && Always(k, log) && EndedSeq(log) == done
    && Stored(log).Some? && Fits(k, done + [i], Stored(log).value)
  }

  lemma EndedStays(k: Course, i: nat, log: seq<Event>, done: seq<nat>)
    requires ForwardControl(k.g.ctl) && Underway(k, i, log, done)
    ensures Always(k, log + [Ended(i)]) && EndedSeq(log + [Ended(i)]) == done + [i]
  {
    EndedSnoc(log, Ended(i));
    ConsistentWith(k, log + [Ended(i)], done + [i], Stored(log).value);
    AlwaysSnoc(k, log, Ended(i));
  }

  /** How a step may leave the delivery. */
  ghost predicate Turned(k: Course, w: World, f: Flow)
    requires ForwardControl(k.g.ctl)
  {
    && Always(k, f.run.log)
    && match f
       case Next(c) => Leads(k, c.m, EndedSeq(c.log))
       case Break(c) => Final(k, c.m, EndedSeq(c.log))
       case Return(c, err) => KeepsSaves(k, w) && err != SaveFailed ==> AtRest(k, c.log)
  }

  lemma FinalFits(k: Course, m: Msg, done: seq<nat>, s: MessageStatus)
    requires ForwardControl(k.g.ctl) && Final(k, m, done)
    ensures Final(k, m.SetStatus(s), done)
  {}

  /** Saving the result of a step. */
  lemma ConcludeTurns(k: Course, w: World, c: Run, proceed: bool, done: seq<nat>)
    requires ForwardControl(k.g.ctl) && Always(k, c.log) && done == EndedSeq(c.log) && c.m.Valid()
    requires if proceed then Leads(k, c.m, done) else Final(k, c.m, done)
    ensures Turned(k, w, Conclude(k.g.r, w, c, proceed))
  {
    if proceed {
      LeadsFits(k, c.m, done);
    } else {
      FinalFits(k, c.m, done, Stopped);
    }
    SaveFits(k, w, c, false, done, c.m.ToSnapshot());
  }

  /** A step that has ended, and its save. */
  lemma EndedTurns(k: Course, w: World, c: Run, i: nat, proceed: bool, done: seq<nat>)
    requires ForwardControl(k.g.ctl) && Underway(k, i, c.log, done) && c.m.Valid()
    requires if proceed then Leads(k, c.m, done + [i]) else Final(k, c.m, done + [i])
    ensures Turned(k, w, Conclude(k.g.r, w, c.Emit(Ended(i)), proceed))
  {
    EndedStays(k, i, c.log, done);
    ConcludeTurns(k, w, c.Emit(Ended(i)), proceed, done + [i]);
  }

  /** The message after a success. */
  function Succeeded(m: Msg, name: string, key: string, proceed: bool): Msg {
    var status := if proceed then SSuccess else SStopped;
    m.AddHistory(name, false, status).MarkFinished(key, status, None)
  }

  lemma RedirectTurns(k: Course, w: World, c: Run, i: nat, key: string, p: Object, m: Msg, done: seq<nat>, move: Move)
    requires ForwardControl(k.g.ctl) && Faithful(w, k.g) && Underway(k, i, c.log, done)
    requires Visits(k, i, p, key, m, done) && move == Moved(k.g, i, p)
    requires (move.proceed, m.payload) == k.g.eff(k.g.slip[i], p) && k.g.slip[i].name in k.g.r.controllers
    requires c.m == Succeeded(m, k.g.slip[i].name, key, move.proceed)
    ensures Turned(k, w, AfterRedirect(k.g.r, w, c, k.g.slip[i], i, key, move.proceed))
  {
    ControlIsFaithful(w, k.g, c.t, c.m, k.g.slip[i], i);
    var c2 := Redirected(c, w.redirect(c.t, c.m, k.g.slip[i], i));
    EndedLeads(k, i, p, key, m, c2.m, done, move);
    EndedTurns(k, w, c2, i, move.proceed, done);
  }

  lemma SuccessTurns(k: Course, w: World, c: Run, i: nat, key: string, p: Object, done: seq<nat>, move: Move)
    requires ForwardControl(k.g.ctl) && Faithful(w, k.g) && Underway(k, i, c.log, done)
    requires Visits(k, i, p, key, c.m, done) && move == Moved(k.g, i, p)
    requires (move.proceed, c.m.payload) == k.g.eff(k.g.slip[i], p)
    ensures Turned(k, w, AfterSuccess(k.g.r, w, c, k.g.slip[i], i, key, move.proceed))
  {
    var c1 := c.With(Succeeded(c.m, k.g.slip[i].name, key, move.proceed));
    if k.g.slip[i].name in k.g.r.controllers {
      RedirectTurns(k, w, c1, i, key, p, c.m, done, move);
    } else {
      EndedLeads(k, i, p, key, c.m, c1.m, done, move);
      EndedTurns(k, w, c1, i, move.proceed, done);
    }
  }

  lemma ControlIsFaithful(w: World, g: Setting, t: nat, m: Msg, step: StepDef, i: nat)
    requires ForwardControl(g.ctl) && Faithful(w, g)
    ensures var d := w.redirect(t, m, step, i);
            d == g.ctl(m.slip, m.payload, step, i) && d.err.None? && (d.changed ==> d.next > i)
  {}

  lemma FailureTurns(k: Course, w: World, c: Run, i: nat, key: string, err: Fault, done: seq<nat>)
    requires Straight(k.g) && Always(k, c.log) && EndedSeq(c.log) == done
    requires Visits(k, i, c.m.payload, key, c.m, done)
    ensures var f := AfterFailure(k.g.r, w, c, k.g.slip[i], i, key, err); f.Return? && Turned(k, w, f)
  {
    var step := k.g.slip[i];
    assert step in k.g.slip;
    var m := c.m.AddError(step.name, err).MarkFinished(key, SFailed, Some(err));
    FailedLeads(k, i, key, c.m, done, step.name, err);
    AbortFits(k, w, c.With(m), i, StepFailed(step.name, err.Text()), done);
  }

  lemma ExecuteTurns(k: Course, w: World, c: Run, i: nat, key: string, done: seq<nat>)
    requires Straight(k.g) && Faithful(w, k.g) && Underway(k, i, c.log, done)
    requires Visits(k, i, c.m.payload, key, c.m, done)
    ensures Turned(k, w, Execute(k.g.r, w, c, i, key))
  {
    var step := k.g.slip[i];
    var (c1, res) := Attempt(w, c, step, i, key, 1);
    AllAnswerFaithfully(w, k.g, step);
    AttemptsAgree(w, k.g, c, step, i, key, 1);
    var n := Durability.AttemptLogsCalls(w, c, step, i, key, 1);
    CallsAreQuiet(k, c.log, i, key, n);
    VisitsAfterAttempt(k, i, key, c.m, c1.m, done);
    match res
    case Fails(err) => FailureTurns(k, w, c1, i, key, err, done);
    case Proceeds(_) => SuccessTurns(k, w, c1, i, key, c.m.payload, done, Moved(k.g, i, c.m.payload));
  }

  // ----- A delivery -----

  /** The key of a step is one of its keys. */
  lemma KeyIsFor(k: Course, w: World, c: Run, i: nat)
    requires i < |k.g.slip| && c.m.slip == k.g.slip && c.m.id == k.g.id
    requires WorkflowIn(k.g.r, c.m.headers) == k.g.workflow
    ensures KeyFor(k.g, KeyOf(k.g.r, w, c, i), i)
  {
    assert KeyOf(k.g.r, w, c, i) == KeyAt(k.g, i, c.m.correlationID, w.order(c.t));
  }

  /** No success is recorded under the key of a step that is still ahead. */
  lemma NotYetDone(k: Course, m: Msg, key: string, i: nat)
    requires KeysApart(k.g) && KeysBelow(k.g, m.states, i) && KeyFor(k.g, key, i)
    ensures !AlreadyDone(m, key)
  {
    assert AlreadyDone(m, key) ==> KeyBelow(k.g, key, i);
  }

  lemma StartTurns(k: Course, w: World, c: Run, i: nat, key: string, done: seq<nat>)
    requires Straight(k.g) && Faithful(w, k.g) && Always(k, c.log) && EndedSeq(c.log) == done
    requires Visits(k, i, c.m.payload, key, c.m, done)
    ensures var f := Persist(k.g.r, w, c.With(c.m.MarkRunning(key, k.g.slip[i], i)));
            Turned(k, w, if f.Return? then f else Execute(k.g.r, w, f.run, i, key))
  {
    var c1 := c.With(c.m.MarkRunning(key, k.g.slip[i], i));
    RunningFits(k, i, key, c.m, done, k.g.slip[i], done);
    RunningFits(k, i, key, c.m, done, k.g.slip[i], done + [i]);
    SaveFits(k, w, c1, false, done, c1.m.ToSnapshot());
    VisitsAfterAttempt(k, i, key, c.m, c1.m, done);
    var f := Persist(k.g.r, w, c1);
    if f.Next? {
      ExecuteTurns(k, w, f.run, i, key, done);
    }
  }

  /** A step without a handler is left with the cursor on it. */
  lemma MissingTurns(k: Course, w: World, c: Run, i: nat, m: Msg, done: seq<nat>)
    requires ForwardControl(k.g.ctl) && Always(k, c.log) && EndedSeq(c.log) == done
    requires Leads(k, m, done) && i == m.cursor < |m.slip| && c.m == m.SetCursor(i + 1)
    ensures Turned(k, w, Abort(k.g.r, w, c.With(c.m.AddError(k.g.slip[i].name, NoHandler(k.g.slip[i].name))), i,
                            NoHandler(k.g.slip[i].name)))
  {
    var c1 := c.With(c.m.AddError(k.g.slip[i].name, NoHandler(k.g.slip[i].name)));
    AbortFits(k, w, c1, i, NoHandler(k.g.slip[i].name), done);
  }

  lemma DispatchTurns(k: Course, w: World, c: Run, i: nat, m: Msg, done: seq<nat>)
    requires Straight(k.g) && Faithful(w, k.g) && Always(k, c.log) && EndedSeq(c.log) == done
    requires Leads(k, m, done) && i == m.cursor < |m.slip| && c.m == m.SetCursor(i + 1)
    ensures Turned(k, w, Dispatch(k.g.r, w, c, i))
  {
    if k.g.slip[i].name !in k.g.r.handlers {
      MissingTurns(k, w, c, i, m, done);
    } else {
      var key := KeyOf(k.g.r, w, c, i);
      if k.g.r.idempotent {
        KeyIsFor(k, w, c, i);
        NotYetDone(k, c.m, key, i);
      }
      VisitsStart(k, m, key, done);
      StartTurns(k, w, c, i, key, done);
    }
  }

  lemma EnterFits(k: Course, w: World, c: Run, done: seq<nat>)
    requires ForwardControl(k.g.ctl) && Always(k, c.log) && EndedSeq(c.log) == done
    requires Leads(k, c.m, done) && c.m.cursor < |c.m.slip|
    ensures var f := Enter(k.g.r, w, c);
            && Always(k, f.run.log) && EndedSeq(f.run.log) == done && (f.Return? ==> f.err == SaveFailed)
  {
    AlwaysQuiet(k, c.log, Entered(c.m.cursor));
    LeadsFits(k, c.m, done);
    SaveFits(k, w, c.Emit(Entered(c.m.cursor)), false, done, c.m.ToSnapshot());
  }

  lemma VisitTurns(k: Course, w: World, c: Run, done: seq<nat>)
    requires Straight(k.g) && Faithful(w, k.g) && Always(k, c.log) && EndedSeq(c.log) == done
    requires Leads(k, c.m, done) && c.m.cursor < |c.m.slip|
    ensures Turned(k, w, Visit(k.g.r, w, c))
  {
    EnterFits(k, w, c, done);
    var f := Enter(k.g.r, w, c);
    if f.Next? {
      DispatchTurns(k, w, f.run, c.m.cursor, c.m, done);
    }
  }

  lemma IterateTurns(k: Course, w: World, c: Run, done: seq<nat>)
    requires Straight(k.g) && Faithful(w, k.g) && Always(k, c.log) && EndedSeq(c.log) == done && Leads(k, c.m, done)
    ensures Turned(k, w, Iterate(k.g.r, w, c))
  {
    if w.Cancelled(c.t) {
      var m := c.m.SetStatus(Cancelled);
      LeadsFits(k, m, done);
      SaveFits(k, w, c.Tick().With(m), true, done, m.ToSnapshot());
    } else if c.m.cursor >= |c.m.slip| {
      FinalAtEnd(k, c.m, done);
    } else {
      VisitTurns(k, w, c.Tick(), done);
    }
  }

  /** What a delivery leaves: a log that fits at every point, and the goal if it reports no error. */
  ghost predicate Delivered(k: Course, w: World, res: (Run, Option<Fault>))
    requires ForwardControl(k.g.ctl)
  {
    && Always(k, res.0.log)
    && (res.1.Some? && res.1.value != SaveFailed && KeepsSaves(k, w) ==> AtRest(k, res.0.log))
    && (res.1.None? ==> End(res.0.m.payload, res.0.m.cursor, EndedSeq(res.0.log)) == k.goal)
  }

  lemma FinishDelivers(k: Course, w: World, c: Run, done: seq<nat>)
    requires ForwardControl(k.g.ctl) && Always(k, c.log) && EndedSeq(c.log) == done && Final(k, c.m, done)
    ensures Delivered(k, w, Finish(k.g.r, w, c))
  {
    var m := if c.m.status in {Running, Blank} then c.m.SetStatus(Completed) else c.m;
    FinalFits(k, c.m, done, Completed);
    SaveFits(k, w, c.With(m), false, done, m.ToSnapshot());
  }

  lemma {:induction false} LoopDelivers(k: Course, w: World, c: Run)
    requires Straight(k.g) && Faithful(w, k.g) && Always(k, c.log) && Leads(k, c.m, EndedSeq(c.log))
    ensures Delivered(k, w, Loop(k.g.r, w, c))
    decreases if w.live > c.t then w.live - c.t else 0
  {
    IterateTurns(k, w, c, EndedSeq(c.log));
    match Iterate(k.g.r, w, c)
    case Next(c') => LoopDelivers(k, w, c');
    case Break(c') => FinishDelivers(k, w, c', EndedSeq(c'.log));
    case Return(_, _) =>
  }

  lemma LabelledLeads(k: Course, m: Msg, done: seq<nat>)
    requires ForwardControl(k.g.ctl) && Leads(k, m, done)
    ensures Leads(k, Labelled(k.g.r, m), done)
  {}

  /** A call of Process from a message that leads to a goal: at every point of its log, and so wherever a
      crash cuts it, the stored snapshot fits the goal, whatever the saves do; and a call that reports
      no error has reached the goal. */
  lemma ProcessDelivers(k: Course, w: World, c: Run)
    requires Straight(k.g) && Faithful(w, k.g) && Always(k, c.log) && Leads(k, c.m, EndedSeq(c.log))
    ensures Delivered(k, w, Process(k.g.r, w, c))
  {
    var m := Labelled(k.g.r, c.m);
    LabelledLeads(k, c.m, EndedSeq(c.log));
    LeadsFits(k, m, EndedSeq(c.log));
    SaveFits(k, w, c.With(m), false, EndedSeq(c.log), m.ToSnapshot());
    var f := Persist(k.g.r, w, c.With(m));
    if f.Next? {
      LoopDelivers(k, w, f.run);
    }
  }

  // ----- From one delivery to the next -----

  /** The deployment that a setting describes. */
  predicate Serves(app: App, g: Setting) {
    g.slip == app.steps && g.workflow == if app.name == "" then g.r.workflow else app.name
  }

  /** A delivery can go on from this log: nothing is stored and nothing has ended, or a snapshot in good
      order is stored whose run was not stopped. */
  ghost predicate Startable(g: Setting, log: seq<Event>) {
    match Stored(log)
    case None => EndedSeq(log) == []
    case Some(s) => WellFormed(g, EndedSeq(log), s) && !StoppedLast(s.history)
  }

  /** The course of a delivery from this log: the ideal run from the stored snapshot, or from the start
      with the payload of the delivery. */
  ghost function CourseFrom(g: Setting, log: seq<Event>, p: Object): Course
    requires ForwardControl(g.ctl) && Startable(g, log)
  {
    match Stored(log)
    case None => Course(g, Ideal(g, 0, p), 0, |log|)
    case Some(s) => Course(g, Ideal(g, s.cursor, s.payload).After(EndedSeq(log)), s.cursor, |log|)
  }

  lemma StartFits(g: Setting, log: seq<Event>, p: Object)
    requires ForwardControl(g.ctl) && Startable(g, log)
    ensures Always(CourseFrom(g, log, p), log)
  {}

  lemma NewLeads(k: Course, app: App, req: Request, ids: Identified)
    requires ForwardControl(k.g.ctl) && Serves(app, k.g) && ids.messageID == k.g.id
    requires k.base == 0 && k.goal == Ideal(k.g, 0, ids.payload)
    ensures Leads(k, Traced(Prepared(app, req, ids, None), req), [])
  {
    assert [] + app.steps == app.steps;
    assert [] + k.goal.steps == k.goal.steps;
  }

  /** What preparing a stored message keeps and sets. */
  lemma RestoredMessage(app: App, req: Request, ids: Identified, s: Snapshot)
    requires 0 <= s.cursor <= |s.slip| && s.slip == app.steps
    ensures var m := Traced(Prepared(app, req, ids, Some(s)), req);
            && m == Restore(s).(headers := m.headers, correlationID := m.correlationID, traceID := m.traceID)
            && "workflow" in m.headers && m.headers["workflow"] == app.name
  {
    if s.slip == [] { assert s.slip + app.steps == []; }
  }

  lemma RestoredLeads(k: Course, app: App, req: Request, ids: Identified, s: Snapshot, done: seq<nat>)
    requires ForwardControl(k.g.ctl) && Serves(app, k.g) && WellFormed(k.g, done, s) && !StoppedLast(s.history)
    requires k.base == s.cursor && k.goal == Ideal(k.g, s.cursor, s.payload).After(done)
    ensures Leads(k, Traced(Prepared(app, req, ids, Some(s)), req), done)
  {
    RestoredMessage(app, req, ids, s);
  }

  /** A delivery, whatever its saves do and wherever its context ends: its log fits the course at every
      point, and if it reports no error it has come to the end of the course. */
  lemma DeliveryFits(app: App, g: Setting, w: World, req: Request, ids: Identified, log: seq<Event>)
    requires Straight(g) && Faithful(w, g) && Serves(app, g) && ids.messageID == g.id && Startable(g, log)
    ensures var k, (c, out) := CourseFrom(g, log, ids.payload), Deliver(app, g.r, w, req, ids, log);
            && log <= c.log && Always(k, c.log)
            && (out.Done? && out.err.None? ==> End(out.m.payload, out.m.cursor, EndedSeq(c.log)) == k.goal)
            && (out.Done? && out.err.Some? && out.err.value != SaveFailed && KeepsSaves(k, w) ==> AtRest(k, c.log))
            && (!out.Done? ==> c.log == log)
  {
    var k, m := CourseFrom(g, log, ids.payload), Prepared(app, req, ids, Stored(log));
    StartFits(g, log, ids.payload);
    match Stored(log) {
      case None => NewLeads(k, app, req, ids);
      case Some(s) => RestoredLeads(k, app, req, ids, s, EndedSeq(log));
    }
    var start := Traced(m, req);
    if req.loads && !AlreadyComplete(m) {
      ProcessDelivers(k, w, Run(start, log, 0));
    } else if req.loads {
      FinalAtEnd(k, start, EndedSeq(log));
    }
  }

  /** Wherever a crash cuts the log of a delivery: if nothing is stored, no step has succeeded; otherwise
      the stored snapshot either stands at the end of the ideal run, stopped; or the ideal run goes on
      from it; or it shows the step before its cursor as running, with the payload from before it. */
  lemma EveryCrashFits(app: App, g: Setting, w: World, req: Request, ids: Identified, log: seq<Event>, n: nat)
    requires Straight(g) && Faithful(w, g) && Serves(app, g) && ids.messageID == g.id && Startable(g, log)
    requires |log| <= n <= |Deliver(app, g.r, w, req, ids, log).0.log|
    ensures Consistent(CourseFrom(g, log, ids.payload), Deliver(app, g.r, w, req, ids, log).0.log[..n])
  {
    DeliveryFits(app, g, w, req, ids, log);
    AlwaysAt(CourseFrom(g, log, ids.payload), Deliver(app, g.r, w, req, ids, log).0.log, n);
  }

  /** The end of the run does not depend on step i. */
  ghost predicate MakesNoDifference(g: Setting, i: nat, p: Object)
    requires i < |g.slip| && ForwardControl(g.ctl)
  {
    Rest(g, i, p) == Ideal(g, i + 1, p)
  }

  /** The step before the cursor has ended. */
  predicate JustEnded(done: seq<nat>, cursor: nat) { done != [] && done[|done| - 1] + 1 == cursor }

  lemma StartableAfter(k: Course, log: seq<Event>)
    requires ForwardControl(k.g.ctl) && Consistent(k, log)
    requires Stored(log).Some? ==> !StoppedLast(Stored(log).value.history)
    ensures Startable(k.g, log)
  {}

  lemma EqualAfter(a: End, b: End, done: seq<nat>)
    ensures a.After(done) == b.After(done) <==> a == b
  {
    assert a.steps == (done + a.steps)[|done|..] && b.steps == (done + b.steps)[|done|..];
  }

  lemma InsideIsExact(k: Course, done: seq<nat>, s: Snapshot)
    requires ForwardControl(k.g.ctl) && InsideStep(k, done, s) && WellFormed(k.g, done, s)
    ensures Ideal(k.g, s.cursor, s.payload).After(done) == k.goal
            <==> JustEnded(done, s.cursor) && MakesNoDifference(k.g, s.cursor - 1, s.payload)
  {
    var i: nat := s.cursor - 1;
    var before, next := Before(done, i), Ideal(k.g, s.cursor, s.payload);
    AfterTwice(Rest(k.g, i, s.payload), before, [i]);
    if done == before + [i] {
      assert JustEnded(done, s.cursor);
      EqualAfter(next, Rest(k.g, i, s.payload), done);
    } else {
      StepIsMissing(next, Rest(k.g, i, s.payload), before, i);
      assert done != [] ==> done[|done| - 1] in done;
    }
  }

  lemma StepIsMissing(next: End, rest: End, before: seq<nat>, i: nat)
    requires forall x | x in next.steps :: x > i
    ensures next.After(before) != rest.After(before + [i])
  {
    var a, b := before + next.steps, before + [i] + rest.steps;
    assert b[|before|] == i;
    if next.steps != [] {
      assert a[|before|] == next.steps[0] && next.steps[0] in next.steps;
    }
  }

  lemma CrashIsExact(k: Course, front: seq<Event>, p: Object, s: Snapshot)
    requires ForwardControl(k.g.ctl) && Consistent(k, front)
    requires Stored(front) == Some(s) && !StoppedLast(s.history)
    ensures Startable(k.g, front)
    ensures CourseFrom(k.g, front, p).goal == k.goal
            <==> RunningBelow(s.states, k.base)
                 || (JustEnded(EndedSeq(front), s.cursor) && MakesNoDifference(k.g, s.cursor - 1, s.payload))
    ensures !RunningBelow(s.states, k.base) ==> InsideStep(k, EndedSeq(front), s)
  {
    StartableAfter(k, front);
    if !RunningBelow(s.states, k.base) {
      InsideIsExact(k, EndedSeq(front), s);
    }
  }

  /** The next delivery starts where the crash left off, and what it comes to is the goal of the crashed
      one exactly when the snapshot shows no step of the crashed delivery as running, or the running step
      had ended and makes no difference to the end of the run. Otherwise the step is passed over: the next
      delivery is the ideal run from the step after it, with the payload from before it. */
  lemma ResumeIsExact(app: App, g: Setting, w: World, req: Request, ids: Identified, log: seq<Event>, n: nat,
                      front: seq<Event>, s: Snapshot, p: Object)
    requires Straight(g) && Faithful(w, g) && Serves(app, g) && ids.messageID == g.id && Startable(g, log)
    requires |log| <= n <= |Deliver(app, g.r, w, req, ids, log).0.log|
    requires front == Deliver(app, g.r, w, req, ids, log).0.log[..n]
    requires Stored(front) == Some(s) && !StoppedLast(s.history)
    ensures var k, done := CourseFrom(g, log, ids.payload), EndedSeq(front);
            && Startable(g, front)
            && CourseFrom(g, front, p).goal == Ideal(g, s.cursor, s.payload).After(done)
            && (CourseFrom(g, front, p).goal == k.goal
                <==> RunningBelow(s.states, k.base)
                     || (JustEnded(done, s.cursor) && MakesNoDifference(g, s.cursor - 1, s.payload)))
            && (!RunningBelow(s.states, k.base) ==>
                  Ideal(g, s.cursor - 1, s.payload).After(Before(done, s.cursor - 1)) == k.goal)
  {
    EveryCrashFits(app, g, w, req, ids, log, n);
    CrashIsExact(CourseFrom(g, log, ids.payload), front, p, s);
  }

  // ----- Many deliveries -----

  /** A delivery that crashes after some events, or ends before. */
  datatype Round = Round(w: World, req: Request, ids: Identified, crash: nat)

  /** What a crash leaves of a log that has grown. */
  function Cut(log: seq<Event>, all: seq<Event>, crash: nat): seq<Event> {
    if |log| + crash <= |all| then all[..|log| + crash] else all
  }

  /** The log that a round leaves behind. */
  function LogAfter(app: App, r: Config, x: Round, log: seq<Event>): seq<Event> {
    Cut(log, Deliver(app, r, x.w, x.req, x.ids, log).0.log, x.crash)
  }

  function LogAfterAll(app: App, r: Config, rounds: seq<Round>, log: seq<Event>): seq<Event>
    decreases |rounds|
  {
    if rounds == [] then log else LogAfterAll(app, r, rounds[1..], LogAfter(app, r, rounds[0], log))
  }

  ghost predicate AllServed(g: Setting, rounds: seq<Round>) {
    forall x | x in rounds :: Faithful(x.w, g) && x.ids.messageID == g.id
  }

  /** Where a delivery from this log begins. */
  function BaseOf(log: seq<Event>): int { match Stored(log) case None => 0 case Some(s) => s.cursor }

  /** The payload that a message is made from, as long as none is stored. */
  predicate SamePayload(log: seq<Event>, x: Round, p: Object) { Stored(log).None? ==> x.ids.payload == p }

  /** What is stored after a delivery shows no step of it as running, and no stop. */
  predicate Settled(log: seq<Event>, log': seq<Event>) {
    match Stored(log')
    case None => true
    case Some(s) => RunningBelow(s.states, BaseOf(log)) && !StoppedLast(s.history)
  }

  /** Every round leaves a settled snapshot, if any. */
  predicate AllSettled(app: App, r: Config, p: Object, rounds: seq<Round>, log: seq<Event>)
    decreases |rounds|
  {
    rounds == [] ||
    var log' := LogAfter(app, r, rounds[0], log);
    SamePayload(log, rounds[0], p) && Settled(log, log') && AllSettled(app, r, p, rounds[1..], log')
  }

  lemma SettledLeads(k: Course, log: seq<Event>, log': seq<Event>, p: Object)
    requires ForwardControl(k.g.ctl) && Startable(k.g, log) && k == CourseFrom(k.g, log, p)
    requires Consistent(k, log') && Settled(log, log') && (Stored(log').None? ==> Stored(log).None?)
    ensures Startable(k.g, log') && CourseFrom(k.g, log', p).goal == k.goal
  {}

  lemma {:induction false} StoredStays(log: seq<Event>, log': seq<Event>)
    requires log <= log' && Stored(log).Some?
    ensures Stored(log').Some?
    decreases |log'|
  {
    if |log| < |log'| {
      StoredStays(log, log'[..|log'| - 1]);
    } else {
      assert log == log';
    }
  }

  /** What a round leaves behind fits its course. */
  lemma RoundFits(app: App, g: Setting, x: Round, log: seq<Event>, log': seq<Event>)
    requires Straight(g) && Serves(app, g) && Startable(g, log) && Faithful(x.w, g) && x.ids.messageID == g.id
    requires log' == LogAfter(app, g.r, x, log)
    ensures Consistent(CourseFrom(g, log, x.ids.payload), log') && (Stored(log').None? ==> Stored(log).None?)
  {
    DeliveryFits(app, g, x.w, x.req, x.ids, log);
    CutFits(CourseFrom(g, log, x.ids.payload), log, Deliver(app, g.r, x.w, x.req, x.ids, log).0.log, x.crash);
  }

  lemma CutFits(k: Course, log: seq<Event>, all: seq<Event>, crash: nat)
    requires ForwardControl(k.g.ctl) && Always(k, all) && log <= all && k.from == |log|
    ensures var log' := Cut(log, all, crash); Consistent(k, log') && (Stored(log').None? ==> Stored(log).None?)
  {
    var n := if |log| + crash <= |all| then |log| + crash else |all|;
    assert Cut(log, all, crash) == all[..n];
    AlwaysAt(k, all, n);
    if Stored(log).Some? { StoredStays(log, all[..n]); }
  }

  /** A settled round keeps the goal. */
  lemma RoundKeepsGoal(app: App, g: Setting, x: Round, log: seq<Event>, log': seq<Event>, p: Object)
    requires Straight(g) && Serves(app, g) && Startable(g, log) && Faithful(x.w, g) && x.ids.messageID == g.id
    requires log' == LogAfter(app, g.r, x, log) && SamePayload(log, x, p) && Settled(log, log')
    ensures Startable(g, log') && CourseFrom(g, log', p).goal == CourseFrom(g, log, p).goal
  {
    RoundFits(app, g, x, log, log');
    SettledLeads(CourseFrom(g, log, p), log, log', p);
  }

  lemma {:induction false} RoundsKeepGoal(app: App, g: Setting, rounds: seq<Round>, log: seq<Event>, p: Object)
    requires Straight(g) && Serves(app, g) && Startable(g, log) && AllServed(g, rounds)
    requires AllSettled(app, g.r, p, rounds, log)
    ensures var log' := LogAfterAll(app, g.r, rounds, log);
            Startable(g, log') && CourseFrom(g, log', p).goal == CourseFrom(g, log, p).goal
    decreases |rounds|
  {
    if rounds != [] {
      assert rounds[0] in rounds;
      RoundKeepsGoal(app, g, rounds[0], log, LogAfter(app, g.r, rounds[0], log), p);
      RoundsKeepGoal(app, g, rounds[1..], LogAfter(app, g.r, rounds[0], log), p);
    }
  }

  /** After any number of deliveries that crash or report errors, each leaving a snapshot that shows no
      step of its own as running, a delivery that returns no error leaves the same payload, cursor and
      sequence of successful steps as one run in which nothing fails, from where the first one began. */
  lemma InterruptedRunsAgree(app: App, g: Setting, rounds: seq<Round>, last: Round, log: seq<Event>, p: Object)
    requires Straight(g) && Serves(app, g) && Startable(g, log) && AllServed(g, rounds) && AllServed(g, [last])
    requires AllSettled(app, g.r, p, rounds, log) && SamePayload(LogAfterAll(app, g.r, rounds, log), last, p)
    requires var out := Deliver(app, g.r, last.w, last.req, last.ids, LogAfterAll(app, g.r, rounds, log)).1;
             out.Done? && out.err.None?
    ensures var (c, out) := Deliver(app, g.r, last.w, last.req, last.ids, LogAfterAll(app, g.r, rounds, log));
            End(out.m.payload, out.m.cursor, EndedSeq(c.log))
            == match Stored(log)
               case None => Ideal(g, 0, p)
               case Some(s) => Ideal(g, s.cursor, s.payload).After(EndedSeq(log))
  {
    assert last in [last];
    RoundsKeepGoal(app, g, rounds, log, p);
    DeliveryFits(app, g, last.w, last.req, last.ids, LogAfterAll(app, g.r, rounds, log));
  }

  // ----- Deliveries that fail without a crash -----

  /** A delivery that no crash cuts short, and that reports an error other than a failed save. */
  predicate Fails(app: App, r: Config, x: Round, log: seq<Event>) {
    var (c, out) := Deliver(app, r, x.w, x.req, x.ids, log);
    |log| + x.crash >= |c.log| && (out.Done? ==> out.err.Some? && out.err.value != SaveFailed)
  }

  /** The store loses nothing. */
  ghost predicate LosesNothing(w: World) { forall t :: !w.save(t).Loses? }

  /** A failed or cancelled delivery leaves a settled snapshot. */
  lemma FailedRoundSettles(app: App, g: Setting, x: Round, log: seq<Event>)
    requires Straight(g) && Serves(app, g) && Startable(g, log) && Faithful(x.w, g) && x.ids.messageID == g.id
    requires LosesNothing(x.w) && Fails(app, g.r, x, log)
    ensures Settled(log, LogAfter(app, g.r, x, log))
  {
    FailedDeliveryRests(app, g, x.w, x.req, x.ids, log);
    var all := Deliver(app, g.r, x.w, x.req, x.ids, log).0.log;
    WholeCut(log, all, x.crash);
    RestIsSettled(CourseFrom(g, log, x.ids.payload), log, all);
  }

  lemma WholeCut(log: seq<Event>, all: seq<Event>, crash: nat)
    requires |log| + crash >= |all|
    ensures Cut(log, all, crash) == all
  {
    assert all[..|all|] == all;
  }

  lemma FailedDeliveryRests(app: App, g: Setting, w: World, req: Request, ids: Identified, log: seq<Event>)
    requires Straight(g) && Faithful(w, g) && Serves(app, g) && ids.messageID == g.id && Startable(g, log)
    requires LosesNothing(w)
    requires var out := Deliver(app, g.r, w, req, ids, log).1;
             out.Done? ==> out.err.Some? && out.err.value != SaveFailed
    ensures var all := Deliver(app, g.r, w, req, ids, log).0.log;
            AtRest(CourseFrom(g, log, ids.payload), all) || all == log
  {
    DeliveryFits(app, g, w, req, ids, log);
  }

  lemma RestIsSettled(k: Course, log: seq<Event>, all: seq<Event>)
    requires ForwardControl(k.g.ctl) && Startable(k.g, log) && k.base == BaseOf(log)
    requires AtRest(k, all) || all == log
    ensures Settled(log, all)
  {}

  /** Every round fails, and the message is made from one payload as long as none is stored. */
  predicate AllFail(app: App, r: Config, p: Object, rounds: seq<Round>, log: seq<Event>)
    decreases |rounds|
  {
    rounds == [] ||
    (Fails(app, r, rounds[0], log) && SamePayload(log, rounds[0], p)
     && AllFail(app, r, p, rounds[1..], LogAfter(app, r, rounds[0], log)))
  }

  lemma {:induction false} FailedRoundsSettle(app: App, g: Setting, rounds: seq<Round>, log: seq<Event>, p: Object)
    requires Straight(g) && Serves(app, g) && Startable(g, log) && AllServed(g, rounds)
    requires AllFail(app, g.r, p, rounds, log) && forall x | x in rounds :: LosesNothing(x.w)
    ensures AllSettled(app, g.r, p, rounds, log)
    decreases |rounds|
  {
    if rounds != [] {
      var x, log' := rounds[0], LogAfter(app, g.r, rounds[0], log);
      assert x in rounds;
      FailedRoundSettles(app, g, x, log);
      RoundKeepsGoal(app, g, x, log, log', p);
      FailedRoundsSettle(app, g, rounds[1..], log', p);
    }
  }

  /** Any number of failed or cancelled deliveries, each resumed from the snapshot of the one before, and a
      final one without error leave the same payload, cursor and sequence of successful steps as one run
      in which nothing fails, as long as the store loses nothing. */
  lemma FailedRunsAgree(app: App, g: Setting, rounds: seq<Round>, last: Round, log: seq<Event>, p: Object)
    requires Straight(g) && Serves(app, g) && Startable(g, log) && AllServed(g, rounds) && AllServed(g, [last])
    requires AllFail(app, g.r, p, rounds, log) && forall x | x in rounds :: LosesNothing(x.w)
    requires SamePayload(LogAfterAll(app, g.r, rounds, log), last, p)
    requires var out := Deliver(app, g.r, last.w, last.req, last.ids, LogAfterAll(app, g.r, rounds, log)).1;
             out.Done? && out.err.None?
    ensures var (c, out) := Deliver(app, g.r, last.w, last.req, last.ids, LogAfterAll(app, g.r, rounds, log));
            End(out.m.payload, out.m.cursor, EndedSeq(c.log))
            == match Stored(log)
               case None => Ideal(g, 0, p)
               case Some(s) => Ideal(g, s.cursor, s.payload).After(EndedSeq(log))
  {
    FailedRoundsSettle(app, g, rounds, log, p);
    InterruptedRunsAgree(app, g, rounds, last, log, p);
  }

  // ----- How a step comes to be passed over -----

  lemma {:induction false} CallsStoreNothing(log: seq<Event>, i: nat, key: string, n: nat)
    ensures Stored(log + Durability.Calls(i, key, n)) == Stored(log)
  {
    CallsGrow(log, i, key, n);
    if n > 0 {
      CallsStoreNothing(log, i, key, n - 1);
      EndedSnoc(log + Durability.Calls(i, key, n - 1), Invoked(i, key));
    }
  }

  /** The save after a step is lost: after a success, with the context or in the store; after a failure, in
      the store, and then the delivery reports the failure of the step, not of the save. Either way the
      snapshot with the running step stays. */
  lemma LostSaveLeavesRunning(r: Config, w: World, c: Run, i: nat, key: string)
    requires r.durable && r.policy == StopOnError && i < |c.m.slip| && c.m.cursor == i + 1
    requires c.m.slip[i].name !in r.controllers && c.m.slip[i].resilience.Action() == Resilience.Default
    requires Stored(c.log) == Some(c.m.ToSnapshot())
    requires var (c1, res) := Attempt(w, c, c.m.slip[i], i, key, 1);
             w.save(c1.t) == Loses || (res.Proceeds? && w.Cancelled(c1.t))
    ensures var (f, res) := (Execute(r, w, c, i, key), Attempt(w, c, c.m.slip[i], i, key, 1).1);
            && Stored(f.run.log) == Some(c.m.ToSnapshot()) && f.Return?
            && f.err == match res { case Proceeds(_) => SaveFailed
                                    case Fails(err) => StepFailed(c.m.slip[i].name, err.Text()) }
  {
    var (c1, res) := Attempt(w, c, c.m.slip[i], i, key, 1);
    var n := Durability.AttemptLogsCalls(w, c, c.m.slip[i], i, key, 1);
    CallsStoreNothing(c.log, i, key, n);
    EndedSnoc(c1.log, Ended(i));
  }

  /** A step is marked as running, the store keeps it but reports an error: the handler is never called,
      and the snapshot with the running step stays. */
  lemma UnacknowledgedStartLeavesRunning(r: Config, w: World, c: Run, i: nat, key: string)
    requires r.durable && c.m.Valid() && i < |c.m.slip| && c.m.slip[i].name in r.handlers
    requires key == KeyOf(r, w, c, i) && !(r.idempotent && AlreadyDone(c.m, key))
    requires !w.Cancelled(c.t) && w.save(c.t) == StoresUnacknowledged
    ensures var (f, s) := (Dispatch(r, w, c, i), c.m.MarkRunning(key, c.m.slip[i], i).ToSnapshot());
            && f.Return? && f.err == SaveFailed && f.run.log == c.log + [Saved(s)] && Stored(f.run.log) == Some(s)
            && s.payload == c.m.payload && s.cursor == c.m.cursor && Progress.IsRunning(s.states, key)
  {
    EndedSnoc(c.log, Saved(c.m.MarkRunning(key, c.m.slip[i], i).ToSnapshot()));
  }
}
