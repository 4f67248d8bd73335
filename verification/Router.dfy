/** The router as an object, its methods proved against RouterSpec. */
module Router {
  import opened Prelude
  import opened Json
  import opened Messages
  import opened RouterSpec
  import Spec = RouterSpec
  import Resilience
  import StepKeys

  /** The state store, the context and the handlers, with the time of the next interaction. */
  class Environment {
    const world: World
    var tick: nat
    var snapshots: map<string, Snapshot>
    /** What happened to each message. */
    ghost var logs: map<string, seq<Event>>

    constructor (world: World)
      ensures this.world == world && tick == 0 && snapshots == map[] && logs == map[]
    {
      this.world := world;
      tick, snapshots, logs := 0, map[], map[];
    }

    ghost function RunOf(msg: Message): Run
      reads this, msg
    {
      Run(msg.Value(), LogOf(msg.id), tick)
    }

    ghost function LogOf(id: string): seq<Event>
      reads this
    {
      if id in logs then logs[id] else []
    }

    /** The store holds what the log of a message says was saved last. */
    ghost predicate Mirrors(id: string)
      reads this
    {
      && (id in snapshots <==> Stored(LogOf(id)).Some?)
      && (id in snapshots ==> snapshots[id] == Stored(LogOf(id)).value && snapshots[id].id == id)
    }

    /** The logs and snapshots of the other messages. */
    ghost function Others(id: string): (map<string, seq<Event>>, map<string, Snapshot>)
      reads this
    {
      (logs - {id}, snapshots - {id})
    }

    /** The store mirrors the log of every message. */
    ghost predicate MirrorsAll()
      reads this
    {
      forall id :: Mirrors(id)
    }

    /** What is done for one message leaves the rest of the store as it was. */
    twostate lemma StillMirrors(id: string)
      requires old(MirrorsAll()) && Mirrors(id) && Others(id) == old(Others(id))
      ensures MirrorsAll()
    {
      forall k ensures Mirrors(k) {
        if k != id {
          assert old(Mirrors(k));
          assert k in logs <==> k in Others(id).0;
          assert k in snapshots <==> k in Others(id).1;
          assert old(k in logs <==> k in Others(id).0);
          assert old(k in snapshots <==> k in Others(id).1);
        }
      }
    }

    method Cancelled() returns (b: bool)
      modifies this`tick
      ensures tick == old(tick) + 1 && b == world.Cancelled(old(tick))
    {
      b := tick >= world.live;
      tick := tick + 1;
    }

    method Save(s: Snapshot, background: bool) returns (ok: bool)
      modifies this
      ensures tick == old(tick) + 1 && Others(s.id) == old(Others(s.id))
      ensures var stored := (background || !world.Cancelled(old(tick))) && !world.save(old(tick)).Loses?;
              && ok == (stored && world.save(old(tick)).Stores?)
              && LogOf(s.id) == (if stored then old(LogOf(s.id)) + [Saved(s)] else old(LogOf(s.id)))
              && snapshots == (if stored then old(snapshots)[s.id := s] else old(snapshots))
    {
      var t := tick;
      tick := tick + 1;
      if !background && world.Cancelled(t) {
        return false;
      }
      match world.save(t)
      case Stores =>
        Put(s);
        ok := true;
      case Loses =>
        ok := false;
      case StoresUnacknowledged =>
        Put(s);
        ok := false;
    }

    method Put(s: Snapshot)
      modifies this`snapshots, this`logs
      ensures snapshots == old(snapshots)[s.id := s] && LogOf(s.id) == old(LogOf(s.id)) + [Saved(s)]
      ensures Others(s.id) == old(Others(s.id))
    {
      snapshots := snapshots[s.id := s];
      assert snapshots - {s.id} == old(snapshots) - {s.id};
      Append(s.id, Saved(s));
    }

    ghost method Append(id: string, e: Event)
      modifies this`logs
      ensures LogOf(id) == old(LogOf(id)) + [e] && Others(id) == old(Others(id))
    {
      logs := logs[id := LogOf(id) + [e]];
      assert logs - {id} == old(logs) - {id};
    }
  }

  lemma StoredSnoc(log: seq<Event>, e: Event)
    ensures Stored(log + [e]) == match e { case Saved(s) => Some(s) case _ => Stored(log) }
  {
    assert (log + [e])[..|log|] == log;
  }

  datatype Verdict = Go | Halt | Fail(err: Fault)

  function FlowOf(v: Verdict, c: Run): Flow {
    match v
    case Go => Flow.Next(c)
    case Halt => Flow.Break(c)
    case Fail(e) => Flow.Return(c, e)
  }

  /** What the retries come to, after the attempts before this one: their result, or what is left. */
  ghost predicate Awaits(goal: (Run, StepResult), w: World, c: Run, step: StepDef, i: nat, key: string, attempt: nat,
                         last: Option<StepResult>)
  {
    match last
    case None => attempt <= step.resilience.Attempts() && goal == Attempt(w, c, step, i, key, attempt)
    case Some(res) => goal == (c, res)
  }

  lemma TriedOnce(goal: (Run, StepResult), w: World, c: Run, step: StepDef, i: nat, key: string, attempt: nat,
                  c': Run, last: Option<StepResult>)
    requires Awaits(goal, w, c, step, i, key, attempt, None) && (c', last) == TryOnce(w, c, step, i, key, attempt)
    ensures Awaits(goal, w, c', step, i, key, attempt + 1, last)
  {}

  class Router {
    const handlers: set<string>
    const controllers: set<string>
    const errorPolicy: ErrorPolicy
    const durable: bool
    const workflow: string
    const version: string
    const idempotent: bool
    const template: string

    constructor (c: Config)
      ensures Cfg() == c
    {
      handlers, controllers, errorPolicy, durable := c.handlers, c.controllers, c.policy, c.durable;
      workflow, version, idempotent, template := c.workflow, c.version, c.idempotent, c.template;
    }

    function Cfg(): Config {
      Config(handlers, controllers, errorPolicy, durable, workflow, version, idempotent, template)
    }

    method SaveState(env: Environment, msg: Message, background: bool) returns (ok: bool)
      modifies env
      ensures (env.RunOf(msg), ok) == Spec.SaveState(Cfg(), env.world, old(env.RunOf(msg)), background)
      ensures old(env.Mirrors(msg.id)) ==> env.Mirrors(msg.id)
      ensures env.Others(msg.id) == old(env.Others(msg.id))
    {
      if !durable {
        return true;
      }
      var s := msg.TakeSnapshot();
      StoredSnoc(env.LogOf(msg.id), Saved(s));
      ok := env.Save(s, background);
    }

    method Persist(env: Environment, msg: Message) returns (v: Verdict)
      modifies env
      ensures FlowOf(v, env.RunOf(msg)) == Spec.Persist(Cfg(), env.world, old(env.RunOf(msg)))
      ensures old(env.Mirrors(msg.id)) ==> env.Mirrors(msg.id)
      ensures env.Others(msg.id) == old(env.Others(msg.id))
    {
      var ok := SaveState(env, msg, false);
      v := if ok then Go else Fail(SaveFailed);
    }

    method Abort(env: Environment, msg: Message, i: nat, err: Fault) returns (v: Verdict)
      requires msg.Value().Valid()
      modifies env, msg
      ensures FlowOf(v, env.RunOf(msg)) == Spec.Abort(Cfg(), env.world, old(env.RunOf(msg)), i, err)
      ensures old(env.Mirrors(msg.id)) ==> env.Mirrors(msg.id)
      ensures env.Others(msg.id) == old(env.Others(msg.id))
    {
      msg.SetCursor(i);
      msg.SetStatus(Failed);
      var _ := SaveState(env, msg, true);
      v := Fail(err);
    }

    /** The select between the backoff timer and the context. */
    method AwaitBackoff(env: Environment, msg: Message, step: StepDef, attempt: nat) returns (abandoned: bool)
      modifies env`tick
      ensures env.tick == old(env.tick) + 1
      ensures abandoned == WaitAbandoned(env.world, old(env.RunOf(msg)), step, attempt)
    {
      var delay := Resilience.BackoffDuration(step.resilience.retry, attempt, env.world.random(env.tick));
      abandoned := delay > 0 && env.world.Cancelled(env.tick) && env.world.abandonsWait(env.tick);
      env.tick := env.tick + 1;
    }

    method CallHandler(env: Environment, msg: Message, step: StepDef, ghost i: nat, ghost key: string)
      returns (answer: HandlerAnswer)
      modifies env, msg
      ensures answer == env.world.handle(old(env.tick), step, old(msg.payload), old(msg.headers))
      ensures env.RunOf(msg) == Answered(old(env.RunOf(msg)).Emit(Invoked(i, key)), answer)
      ensures old(env.Mirrors(msg.id)) ==> env.Mirrors(msg.id)
      ensures env.Others(msg.id) == old(env.Others(msg.id))
    {
      Note(env, msg, Invoked(i, key));
      answer := env.world.handle(env.tick, step, msg.payload, msg.headers);
      env.tick := env.tick + 1;
      msg.payload, msg.headers := answer.payload, answer.headers;
    }

    /** One attempt: wait, call the handler, and say whether the result is final. */
    method TryHandler(env: Environment, msg: Message, step: StepDef, ghost i: nat, ghost key: string, attempt: nat)
      returns (res: Option<StepResult>)
      modifies env, msg
      ensures (env.RunOf(msg), res) == TryOnce(env.world, old(env.RunOf(msg)), step, i, key, attempt)
      ensures old(env.Mirrors(msg.id)) ==> env.Mirrors(msg.id)
      ensures env.Others(msg.id) == old(env.Others(msg.id))
    {
      ghost var c := env.RunOf(msg);
      var abandoned := AwaitBackoff(env, msg, step, attempt);
      msg.attempt := attempt;
      if abandoned {
        return Some(Fails(ContextCancelled));
      }
      assert env.RunOf(msg) == c.With(c.m.(attempt := attempt)).Tick();
      var answer := CallHandler(env, msg, step, i, key);
      if answer.Handled? {
        return Some(Proceeds(answer.proceed));
      }
      if env.world.Cancelled(env.tick) {
        return Some(Fails(ContextCancelled));
      }
      res := if attempt >= step.resilience.Attempts() then Some(Fails(Raised(answer.text))) else None;
    }

    /** One step's handler with its retries: the loop of handleStep. */
    method HandleStep(env: Environment, msg: Message, step: StepDef, ghost i: nat, ghost key: string)
      returns (res: StepResult)
      modifies env, msg
      ensures (env.RunOf(msg), res) == Attempt(env.world, old(env.RunOf(msg)), step, i, key, 1)
      ensures old(env.Mirrors(msg.id)) ==> env.Mirrors(msg.id)
      ensures env.Others(msg.id) == old(env.Others(msg.id))
    {
      var attempts := step.resilience.Attempts();
      var attempt := 1;
      var last := None;
      ghost var goal := Attempt(env.world, env.RunOf(msg), step, i, key, 1);
      while attempt <= attempts && last == None
        invariant 1 <= attempt <= attempts + 1
        invariant Awaits(goal, env.world, env.RunOf(msg), step, i, key, attempt, last)
        invariant old(env.Mirrors(msg.id)) ==> env.Mirrors(msg.id)
        invariant env.Others(msg.id) == old(env.Others(msg.id))
      {
        ghost var c := env.RunOf(msg);
        last := TryHandler(env, msg, step, i, key, attempt);
        TriedOnce(goal, env.world, c, step, i, key, attempt, env.RunOf(msg), last);
        attempt := attempt + 1;
      }
      res := last.value;
    }

    /** Note a failure that does not end the run, and save. */
    method NoteFailure(env: Environment, msg: Message, step: StepDef, key: string, err: Fault, skipped: bool,
                       status: StepStatus)
      returns (v: Verdict)
      modifies env, msg
      ensures var c := old(env.RunOf(msg));
              FlowOf(v, env.RunOf(msg)) == Spec.Persist(Cfg(), env.world, c.With(
                c.m.AddHistory(step.name, skipped, status).MarkFinished(key, status, Some(err))))
      ensures old(env.Mirrors(msg.id)) ==> env.Mirrors(msg.id)
      ensures env.Others(msg.id) == old(env.Others(msg.id))
    {
      msg.AddHistory(step.name, skipped, status);
      msg.MarkStepFinished(key, status, Some(err));
      v := Persist(env, msg);
    }

    /** Go to the target of a failed step, and save. */
    method JumpOnFailure(env: Environment, msg: Message, step: StepDef, key: string, err: Fault, j: nat)
      returns (v: Verdict)
      modifies env, msg
      ensures var c := old(env.RunOf(msg));
              FlowOf(v, env.RunOf(msg)) == Spec.Persist(Cfg(), env.world, c.With(
                c.m.AddHistory(step.name, true, SJumped).MarkFinished(key, SJumped, Some(err)).SetCursor(j)))
      ensures old(env.Mirrors(msg.id)) ==> env.Mirrors(msg.id)
      ensures env.Others(msg.id) == old(env.Others(msg.id))
    {
      msg.AddHistory(step.name, true, SJumped);
      msg.MarkStepFinished(key, SJumped, Some(err));
      msg.SetCursor(j);
      v := Persist(env, msg);
    }

    method HandleStepFailure(env: Environment, msg: Message, step: StepDef, i: nat, key: string, err: Fault)
      returns (v: Verdict)
      requires msg.Value().Valid() && step.resilience.Action() != Resilience.Default
      modifies env, msg
      ensures FlowOf(v, env.RunOf(msg)) == OnFailure(Cfg(), env.world, old(env.RunOf(msg)), step, i, key, err)
      ensures old(env.Mirrors(msg.id)) ==> env.Mirrors(msg.id)
      ensures env.Others(msg.id) == old(env.Others(msg.id))
    {
      match step.resilience.Action() {
        case Stop =>
          v := Abort(env, msg, i, StepFailed(step.name, err.Text()));
        case Continue =>
          v := NoteFailure(env, msg, step, key, err, false, SFailed);
        case Skip =>
          v := NoteFailure(env, msg, step, key, err, true, SSkipped);
        case Jump =>
          var target := msg.FindStepIndex(step.resilience.onFailure.to);
          match target {
            case None =>
              v := Abort(env, msg, i, TargetMissing(step.name, step.resilience.onFailure.to));
            case Some(j) =>
              v := JumpOnFailure(env, msg, step, key, err, j);
          }
        case Unknown(_) =>
          v := Abort(env, msg, i, UnknownAction(step.name, step.resilience.onFailure.action));
      }
    }

    method StepErred(env: Environment, msg: Message, step: StepDef, i: nat, key: string, err: Fault)
      returns (v: Verdict)
      requires msg.Value().Valid()
      modifies env, msg
      ensures FlowOf(v, env.RunOf(msg)) == AfterFailure(Cfg(), env.world, old(env.RunOf(msg)), step, i, key, err)
      ensures old(env.Mirrors(msg.id)) ==> env.Mirrors(msg.id)
      ensures env.Others(msg.id) == old(env.Others(msg.id))
    {
      msg.AddError(step.name, err);
      msg.MarkStepFinished(key, SFailed, Some(err));
      if step.resilience.Action() != Resilience.Default {
        v := HandleStepFailure(env, msg, step, i, key, err);
      } else if errorPolicy == StopOnError {
        v := Abort(env, msg, i, StepFailed(step.name, err.Text()));
      } else {
        var skipped := errorPolicy == SkipOnError;
        msg.AddHistory(step.name, skipped, if skipped then SSkipped else SFailed);
        v := Persist(env, msg);
      }
    }

    method SaveAndProceed(env: Environment, msg: Message, proceed: bool) returns (v: Verdict)
      requires msg.Value().Valid()
      modifies env, msg
      ensures FlowOf(v, env.RunOf(msg)) == Conclude(Cfg(), env.world, old(env.RunOf(msg)), proceed)
      ensures old(env.Mirrors(msg.id)) ==> env.Mirrors(msg.id)
      ensures env.Others(msg.id) == old(env.Others(msg.id))
    {
      v := Persist(env, msg);
      if v.Go? && !proceed {
        msg.SetStatus(Stopped);
        v := Halt;
      }
    }

    /** Record an event that saves nothing. */
    ghost method Note(env: Environment, msg: Message, e: Event)
      requires !e.Saved?
      modifies env`logs
      ensures env.RunOf(msg) == old(env.RunOf(msg)).Emit(e)
      ensures old(env.Mirrors(msg.id)) ==> env.Mirrors(msg.id)
      ensures env.Others(msg.id) == old(env.Others(msg.id))
    {
      StoredSnoc(env.LogOf(msg.id), e);
      env.Append(msg.id, e);
    }

    /** What a redirect does to the message and the clock. */
    method Apply(env: Environment, msg: Message, d: Redirect)
      requires msg.Value().Valid()
      modifies env`tick, msg
      ensures env.RunOf(msg) == Redirected(old(env.RunOf(msg)), d)
    {
      env.tick := env.tick + 1;
      msg.payload := d.payload;
      if d.changed {
        msg.SetCursor(d.next);
      }
    }

    method Redirection(env: Environment, msg: Message, step: StepDef, i: nat, key: string, proceed: bool)
      returns (v: Verdict)
      requires msg.Value().Valid()
      modifies env, msg
      ensures FlowOf(v, env.RunOf(msg))
              == AfterRedirect(Cfg(), env.world, old(env.RunOf(msg)), step, i, key, proceed)
      ensures old(env.Mirrors(msg.id)) ==> env.Mirrors(msg.id)
      ensures env.Others(msg.id) == old(env.Others(msg.id))
    {
      var d := env.world.redirect(env.tick, msg.Value(), step, i);
      if d.err.None? {
        Apply(env, msg, d);
        Note(env, msg, Ended(i));
        v := SaveAndProceed(env, msg, proceed);
      } else {
        v := RedirectionErred(env, msg, step, i, key, proceed, d);
      }
    }

    method MarkRedirectFailed(msg: Message, d: Redirect, step: StepDef, key: string, text: string)
      requires msg.Value().Valid()
      modifies msg
      ensures msg.Value() == RedirectFailed(old(msg.Value()), d, step, key, text)
    {
      msg.payload := d.payload;
      msg.AddError(step.name, Raised(text));
      msg.MarkStepFinished(key, SFailed, Some(Raised(text)));
    }

    method RedirectionErred(env: Environment, msg: Message, step: StepDef, i: nat, key: string, proceed: bool,
                            d: Redirect)
      returns (v: Verdict)
      requires msg.Value().Valid() && d.err.Some?
      requires d == env.world.redirect(env.tick, msg.Value(), step, i)
      modifies env, msg
      ensures FlowOf(v, env.RunOf(msg))
              == AfterRedirect(Cfg(), env.world, old(env.RunOf(msg)), step, i, key, proceed)
      ensures old(env.Mirrors(msg.id)) ==> env.Mirrors(msg.id)
      ensures env.Others(msg.id) == old(env.Others(msg.id))
    {
      MarkRedirectFailed(msg, d, step, key, d.err.value);
      if errorPolicy == StopOnError {
        v := AbortRedirection(env, msg, i, StepFailed(step.name, d.err.value));
      } else {
        v := ApplyAndProceed(env, msg, d, proceed);
      }
    }

    method AbortRedirection(env: Environment, msg: Message, i: nat, err: Fault) returns (v: Verdict)
      requires msg.Value().Valid()
      modifies env, msg
      ensures FlowOf(v, env.RunOf(msg)) == Spec.Abort(Cfg(), env.world, old(env.RunOf(msg)).Tick(), i, err)
      ensures old(env.Mirrors(msg.id)) ==> env.Mirrors(msg.id)
      ensures env.Others(msg.id) == old(env.Others(msg.id))
    {
      env.tick := env.tick + 1;
      v := Abort(env, msg, i, err);
    }

    method ApplyAndProceed(env: Environment, msg: Message, d: Redirect, proceed: bool) returns (v: Verdict)
      requires msg.Value().Valid()
      modifies env, msg
      ensures FlowOf(v, env.RunOf(msg))
              == Conclude(Cfg(), env.world, Redirected(old(env.RunOf(msg)), d), proceed)
      ensures old(env.Mirrors(msg.id)) ==> env.Mirrors(msg.id)
      ensures env.Others(msg.id) == old(env.Others(msg.id))
    {
      Apply(env, msg, d);
      v := SaveAndProceed(env, msg, proceed);
    }

    method StepSucceeded(env: Environment, msg: Message, step: StepDef, i: nat, key: string, proceed: bool)
      returns (v: Verdict)
      requires msg.Value().Valid()
      modifies env, msg
      ensures FlowOf(v, env.RunOf(msg))
              == AfterSuccess(Cfg(), env.world, old(env.RunOf(msg)), step, i, key, proceed)
      ensures old(env.Mirrors(msg.id)) ==> env.Mirrors(msg.id)
      ensures env.Others(msg.id) == old(env.Others(msg.id))
    {
      var status := if proceed then SSuccess else SStopped;
      msg.AddHistory(step.name, false, status);
      msg.MarkStepFinished(key, status, None);
      if step.name in controllers {
        v := Redirection(env, msg, step, i, key, proceed);
      } else {
        Note(env, msg, Ended(i));
        v := SaveAndProceed(env, msg, proceed);
      }
    }

    method HandlerMissing(env: Environment, msg: Message, step: StepDef, i: nat) returns (v: Verdict)
      requires msg.Value().Valid()
      modifies env, msg
      ensures var c1 := old(env.RunOf(msg)).With(old(msg.Value()).AddError(step.name, NoHandler(step.name)));
              FlowOf(v, env.RunOf(msg))
              == if errorPolicy == StopOnError then Spec.Abort(Cfg(), env.world, c1, i, NoHandler(step.name))
                 else Spec.Persist(Cfg(), env.world, c1)
      ensures old(env.Mirrors(msg.id)) ==> env.Mirrors(msg.id)
      ensures env.Others(msg.id) == old(env.Others(msg.id))
    {
      msg.AddError(step.name, NoHandler(step.name));
      if errorPolicy == StopOnError {
        v := Abort(env, msg, i, NoHandler(step.name));
      } else {
        v := Persist(env, msg);
      }
    }

    /** A step whose success is recorded is passed over. */
    method SkipDone(env: Environment, msg: Message, step: StepDef, i: nat) returns (v: Verdict)
      modifies env, msg
      ensures FlowOf(v, env.RunOf(msg)) == Spec.Persist(Cfg(), env.world, old(env.RunOf(msg)).With(
                old(msg.Value()).AddHistory(step.name, true, SIdempotentSkip).SetCursor(i + 1)))
      ensures old(env.Mirrors(msg.id)) ==> env.Mirrors(msg.id)
      ensures env.Others(msg.id) == old(env.Others(msg.id))
    {
      msg.AddHistory(step.name, true, SIdempotentSkip);
      msg.SetCursor(i + 1);
      v := Persist(env, msg);
    }

    /** The loop body from the handler lookup on. */
    method RunStep(env: Environment, msg: Message, step: StepDef, i: nat) returns (v: Verdict)
      requires msg.Value().Valid() && i < |msg.slip| && step == msg.slip[i]
      modifies env, msg
      ensures FlowOf(v, env.RunOf(msg)) == Dispatch(Cfg(), env.world, old(env.RunOf(msg)), i)
      ensures old(env.Mirrors(msg.id)) ==> env.Mirrors(msg.id)
      ensures env.Others(msg.id) == old(env.Others(msg.id))
    {
      if step.name !in handlers {
        v := HandlerMissing(env, msg, step, i);
        return;
      }
      var key := StepKeys.StepExecutionKey(template, KeyFacts(Cfg(), msg.Value(), step, i), env.world.order(env.tick));
      if idempotent && key in msg.states && msg.states[key].status == SSuccess {
        v := SkipDone(env, msg, step, i);
        return;
      }
      msg.MarkStepRunning(key, step, i);
      v := Persist(env, msg);
      if v.Go? {
        v := Perform(env, msg, step, i, key);
      }
    }

    method Perform(env: Environment, msg: Message, step: StepDef, i: nat, key: string) returns (v: Verdict)
      requires msg.Value().Valid() && i < |msg.slip| && step == msg.slip[i]
      modifies env, msg
      ensures FlowOf(v, env.RunOf(msg)) == Execute(Cfg(), env.world, old(env.RunOf(msg)), i, key)
      ensures old(env.Mirrors(msg.id)) ==> env.Mirrors(msg.id)
      ensures env.Others(msg.id) == old(env.Others(msg.id))
    {
      var res := HandleStep(env, msg, step, i, key);
      match res
      case Proceeds(proceed) =>
        v := StepSucceeded(env, msg, step, i, key, proceed);
      case Fails(err) =>
        v := StepErred(env, msg, step, i, key, err);
    }

    /** The body of the loop for one step: save with the cursor on the step, move past it, run it. */
    method VisitStep(env: Environment, msg: Message, step: StepDef, stepIndex: nat) returns (v: Verdict)
      requires stepIndex < |msg.slip| && step == msg.slip[stepIndex] && msg.cursor == stepIndex
      modifies env, msg
      ensures FlowOf(v, env.RunOf(msg)) == Visit(Cfg(), env.world, old(env.RunOf(msg)))
      ensures old(env.Mirrors(msg.id)) ==> env.Mirrors(msg.id)
      ensures env.Others(msg.id) == old(env.Others(msg.id))
    {
      v := EnterStep(env, msg, stepIndex);
      if v.Go? {
        v := RunStep(env, msg, step, stepIndex);
      }
    }

    /** Save with the cursor on the step, then move past it. */
    method EnterStep(env: Environment, msg: Message, stepIndex: nat) returns (v: Verdict)
      requires stepIndex < |msg.slip| && msg.cursor == stepIndex
      modifies env, msg
      ensures FlowOf(v, env.RunOf(msg)) == Enter(Cfg(), env.world, old(env.RunOf(msg)))
      ensures old(env.Mirrors(msg.id)) ==> env.Mirrors(msg.id)
      ensures env.Others(msg.id) == old(env.Others(msg.id))
    {
      Note(env, msg, Entered(stepIndex));
      v := Persist(env, msg);
      if v.Go? {
        msg.SetCursor(stepIndex + 1);
      }
    }

    method SaveCancelled(env: Environment, msg: Message)
      modifies env, msg
      ensures env.RunOf(msg) == Spec.SaveState(Cfg(), env.world, old(env.RunOf(msg)).With(
                                  old(msg.Value()).SetStatus(Cancelled)), true).0
      ensures old(env.Mirrors(msg.id)) ==> env.Mirrors(msg.id)
      ensures env.Others(msg.id) == old(env.Others(msg.id))
    {
      msg.SetStatus(Cancelled);
      var _ := SaveState(env, msg, true);
    }

    /** One turn of the loop. */
    method Turn(env: Environment, msg: Message) returns (v: Verdict)
      requires msg.Value().Valid()
      modifies env, msg
      ensures FlowOf(v, env.RunOf(msg)) == Iterate(Cfg(), env.world, old(env.RunOf(msg)))
      ensures old(env.Mirrors(msg.id)) ==> env.Mirrors(msg.id)
      ensures env.Others(msg.id) == old(env.Others(msg.id))
    {
      ghost var c := env.RunOf(msg);
      var cancelled := env.Cancelled();
      assert env.RunOf(msg) == c.Tick();
      if cancelled {
        SaveCancelled(env, msg);
        return Fail(ContextCancelled);
      }
      v := TakeStep(env, msg);
    }

    /** The next step, with the cursor back on it, visited; or the end of the slip. */
    method TakeStep(env: Environment, msg: Message) returns (v: Verdict)
      requires msg.Value().Valid()
      modifies env, msg
      ensures var c := old(env.RunOf(msg));
              FlowOf(v, env.RunOf(msg))
              == if c.m.cursor >= |c.m.slip| then Flow.Break(c) else Visit(Cfg(), env.world, c)
      ensures old(env.Mirrors(msg.id)) ==> env.Mirrors(msg.id)
      ensures env.Others(msg.id) == old(env.Others(msg.id))
    {
      var stepIndex := msg.cursor;
      var step := msg.NextStep();
      if step.None? {
        return Halt;
      }
      msg.SetCursor(stepIndex);
      v := VisitStep(env, msg, step.value, stepIndex);
    }

    method AddLabels(msg: Message)
      modifies msg
      ensures msg.Value() == Labelled(Cfg(), old(msg.Value()))
    {
      msg.SetStatus(Running);
      if workflow != "" && ("workflow" !in msg.headers || msg.headers["workflow"] == "") {
        msg.headers := msg.headers["workflow" := workflow];
      }
      if version != "" && ("workflow_version" !in msg.headers || msg.headers["workflow_version"] == "") {
        msg.headers := msg.headers["workflow_version" := version];
      }
    }

    method Process(env: Environment, msg: Message) returns (err: Option<Fault>)
      requires msg.Value().Valid()
      modifies env, msg
      ensures (env.RunOf(msg), err) == Spec.Process(Cfg(), env.world, old(env.RunOf(msg)))
      ensures old(env.Mirrors(msg.id)) ==> env.Mirrors(msg.id)
      ensures env.Others(msg.id) == old(env.Others(msg.id))
    {
      AddLabels(msg);
      var v := Persist(env, msg);
      if v.Fail? {
        return Some(v.err);
      }
      ghost var goal := Loop(Cfg(), env.world, env.RunOf(msg));
      while v.Go?
        invariant msg.Value().Valid() && !v.Fail?
        invariant v.Go? ==> goal == Loop(Cfg(), env.world, env.RunOf(msg))
        invariant v.Halt? ==> goal == Finish(Cfg(), env.world, env.RunOf(msg))
        invariant old(env.Mirrors(msg.id)) ==> env.Mirrors(msg.id)
        invariant env.Others(msg.id) == old(env.Others(msg.id))
        decreases v.Go?, env.world.live - env.tick
      {
        v := Turn(env, msg);
        if v.Fail? {
          return Some(v.err);
        }
      }
      if msg.status in {Running, Blank} {
        msg.SetStatus(Completed);
      }
      var ok := SaveState(env, msg, false);
      err := if ok then None else Some(SaveFailed);
    }
  }
}
