/** What one call of Router.Process does, as a function of everything outside the router's
    control: the answers of the handlers, the state store, the context and the clock.

    External interactions are numbered by ticks, and a `World` fixes the answer at each tick; the
    theorems quantify over all worlds. The context is cancelled from tick `live` on, so every run
    is finite; a run that its context never cuts short is a run of every world with a later
    `live`. The log records the interactions that matter later: what was saved, which handlers
    were invoked, and which steps ended without error. */
module RouterSpec {
  import opened Prelude
  import opened Json
  import opened Messages
  import Resilience
  import StepKeys

  datatype ErrorPolicy = StopOnError | ContinueOnError | SkipOnError

  datatype Config = Config(
    handlers: set<string>, controllers: set<string>, policy: ErrorPolicy, durable: bool,
    workflow: string, version: string, idempotent: bool, template: string)

  /** A handler may rewrite the payload and the headers, whether it succeeds or fails. */
  datatype HandlerAnswer =
    | Handled(proceed: bool, payload: Object, headers: Headers)
    | HandlerFailed(text: string, payload: Object, headers: Headers)

  /** The answer of a cursor controller's NextCursor. */
  datatype Redirect = Redirect(next: int, changed: bool, err: Option<string>, payload: Object)

  /** A save is stored, or it fails; a failure may be reported although the write took place. */
  datatype SaveAnswer = Stores | Loses | StoresUnacknowledged

  datatype World = World(
    live: nat,
    save: nat -> SaveAnswer,
    abandonsWait: nat -> bool,
    random: nat -> nat,
    order: nat -> StepKeys.Order,
    handle: (nat, StepDef, Object, Headers) -> HandlerAnswer,
    redirect: (nat, Msg, StepDef, nat) -> Redirect)
  {
    predicate Cancelled(t: nat) { t >= live }
  }

  datatype Event =
    | Entered(index: nat)
    | Saved(snapshot: Snapshot)
    | Invoked(index: nat, key: string)
    | Ended(index: nat)

  /** The snapshot that a load would find. */
  function Stored(log: seq<Event>): Option<Snapshot> {
    if log == [] then None
    else match log[|log| - 1]
         case Saved(s) => Some(s)
         case _ => Stored(log[..|log| - 1])
  }

  /** A running execution: the message, the log and the time. */
  datatype Run = Run(m: Msg, log: seq<Event>, t: nat) {
    function Tick(): Run { this.(t := t + 1) }
    function Emit(e: Event): Run { this.(log := log + [e]) }
    function With(m': Msg): Run { this.(m := m') }
  }

  /** How a part of the loop body ends. */
  datatype Flow = Next(run: Run) | Break(run: Run) | Return(run: Run, err: Fault)

  datatype StepResult = Proceeds(proceed: bool) | Fails(err: Fault)

  /** The parts of a message that the router never writes, and a cursor inside the slip. */
  predicate Keeps(m: Msg, m': Msg) {
    && m'.id == m.id && m'.createdAt == m.createdAt && m'.correlationID == m.correlationID
    && m'.traceID == m.traceID && m'.slip == m.slip && m'.Valid()
  }

  /** The log grows, without another step being entered. */
  predicate Grows(log: seq<Event>, log': seq<Event>) {
    log <= log' && forall k | |log| <= k < |log'| :: !log'[k].Entered?
  }

  /** The new snapshots are of this message. */
  predicate SavesFor(id: string, log: seq<Event>, log': seq<Event>) {
    log <= log' && forall k | |log| <= k < |log'| && log'[k].Saved? :: log'[k].snapshot.id == id
  }

  /** What holds of every part of the loop body. */
  predicate Continues(c: Run, f: Flow) {
    && f.run.t >= c.t
    && Grows(c.log, f.run.log) && SavesFor(c.m.id, c.log, f.run.log)
    && Keeps(c.m, f.run.m)
    && (f.Next? ==> f.run.m.status == c.m.status)
    && (f.Break? ==> f.run.m.status == Stopped)
  }

  // ----- Saving -----

  function SaveState(r: Config, w: World, c: Run, background: bool): (res: (Run, bool))
    ensures res.0.t >= c.t && Grows(c.log, res.0.log) && SavesFor(c.m.id, c.log, res.0.log) && res.0.m == c.m
  {
    if !r.durable then (c, true)
    else if !background && w.Cancelled(c.t) then (c.Tick(), false)
    else match w.save(c.t)
         case Stores => (c.Tick().Emit(Saved(c.m.ToSnapshot())), true)
         case Loses => (c.Tick(), false)
         case StoresUnacknowledged => (c.Tick().Emit(Saved(c.m.ToSnapshot())), false)
  }

  /** Save, then go on with the next step unless the save failed. */
  function Persist(r: Config, w: World, c: Run): (f: Flow)
    ensures f.run.t >= c.t && Grows(c.log, f.run.log) && SavesFor(c.m.id, c.log, f.run.log) && f.run.m == c.m
    ensures !f.Break?
  {
    var (c', ok) := SaveState(r, w, c, false);
    if ok then Next(c') else Return(c', SaveFailed)
  }

  /** Put the cursor back on the failed step, save with a background context, ignore the outcome. */
  function Abort(r: Config, w: World, c: Run, i: nat, err: Fault): (f: Flow)
    requires c.m.Valid()
    ensures f.run.t >= c.t && Grows(c.log, f.run.log) && SavesFor(c.m.id, c.log, f.run.log) && f.Return?
    ensures Keeps(c.m, f.run.m)
  {
    Return(SaveState(r, w, c.With(c.m.SetCursor(i).SetStatus(Failed)), true).0, err)
  }

  // ----- One handler, with its retries -----

  function Answered(c: Run, a: HandlerAnswer): Run {
    c.Tick().With(c.m.(payload := a.payload, headers := a.headers))
  }

  /** The wait before an attempt ends with the cancellation of the context. */
  predicate WaitAbandoned(w: World, c: Run, step: StepDef, attempt: nat) {
    && w.Cancelled(c.t) && w.abandonsWait(c.t)
    && Resilience.Delay(step.resilience.retry, attempt, w.random(c.t)) > 0
  }

  /** One attempt: a result, or none when another attempt is due. */
  function TryOnce(w: World, c: Run, step: StepDef, i: nat, key: string, attempt: nat)
    : (res: (Run, Option<StepResult>))
    ensures res.0.t > c.t && Grows(c.log, res.0.log)
    ensures res.0.m == c.m.(payload := res.0.m.payload, headers := res.0.m.headers, attempt := attempt)
    ensures res.0.log == c.log || res.0.log == c.log + [Invoked(i, key)]
    ensures attempt >= step.resilience.Attempts() ==> res.1.Some?
  {
    var c0 := c.With(c.m.(attempt := attempt)).Tick();
    if WaitAbandoned(w, c, step, attempt) then (c0, Some(Fails(ContextCancelled)))
    else
      var c1 := c0.Emit(Invoked(i, key));
      var a := w.handle(c1.t, step, c1.m.payload, c1.m.headers);
      var c2 := Answered(c1, a);
      match a
      case Handled(proceed, _, _) => (c2, Some(Proceeds(proceed)))
      case HandlerFailed(text, _, _) =>
        if w.Cancelled(c2.t) then (c2, Some(Fails(ContextCancelled)))
        else if attempt >= step.resilience.Attempts() then (c2, Some(Fails(Raised(text))))
        else (c2, None)
  }

  function Attempt(w: World, c: Run, step: StepDef, i: nat, key: string, attempt: nat): (res: (Run, StepResult))
    ensures res.0.t > c.t && Grows(c.log, res.0.log) && SavesFor(c.m.id, c.log, res.0.log)
    ensures res.0.m == c.m.(payload := res.0.m.payload, headers := res.0.m.headers, attempt := res.0.m.attempt)
    decreases step.resilience.Attempts() - attempt
  {
    var (c', res) := TryOnce(w, c, step, i, key, attempt);
    if res.Some? then (c', res.value) else Attempt(w, c', step, i, key, attempt + 1)
  }

  // ----- The loop body -----

  function OnFailure(r: Config, w: World, c: Run, step: StepDef, i: nat, key: string, err: Fault): (f: Flow)
    requires step.resilience.Action() != Resilience.Default
    requires c.m.Valid()
    ensures Continues(c, f) && !f.Break?
  {
    match step.resilience.Action()
    case Stop => Abort(r, w, c, i, StepFailed(step.name, err.Text()))
    case Continue =>
      Persist(r, w, c.With(c.m.AddHistory(step.name, false, SFailed).MarkFinished(key, SFailed, Some(err))))
    case Skip =>
      Persist(r, w, c.With(c.m.AddHistory(step.name, true, SSkipped).MarkFinished(key, SSkipped, Some(err))))
    case Jump =>
      (match FindStep(c.m.slip, step.resilience.onFailure.to)
       case None => Abort(r, w, c, i, TargetMissing(step.name, step.resilience.onFailure.to))
       case Some(j) =>
         Persist(r, w, c.With(c.m.AddHistory(step.name, true, SJumped)
                                 .MarkFinished(key, SJumped, Some(err)).SetCursor(j))))
    case Unknown(_) => Abort(r, w, c, i, UnknownAction(step.name, step.resilience.onFailure.action))
  }

  function AfterFailure(r: Config, w: World, c: Run, step: StepDef, i: nat, key: string, err: Fault): (f: Flow)
    requires c.m.Valid()
    ensures Continues(c, f) && !f.Break?
  {
    var c1 := c.With(c.m.AddError(step.name, err).MarkFinished(key, SFailed, Some(err)));
    if step.resilience.Action() != Resilience.Default then OnFailure(r, w, c1, step, i, key, err)
    else match r.policy
         case StopOnError => Abort(r, w, c1, i, StepFailed(step.name, err.Text()))
         case ContinueOnError => Persist(r, w, c1.With(c1.m.AddHistory(step.name, false, SFailed)))
         case SkipOnError => Persist(r, w, c1.With(c1.m.AddHistory(step.name, true, SSkipped)))
  }

  /** Save, then leave the loop with status stopped if the handler asked for it. */
  function Conclude(r: Config, w: World, c: Run, proceed: bool): (f: Flow)
    requires c.m.Valid()
    ensures Continues(c, f)
  {
    var f := Persist(r, w, c);
    if f.Return? || proceed then f else Break(f.run.With(f.run.m.SetStatus(Stopped)))
  }

  function Redirected(c: Run, d: Redirect): Run {
    var m := c.m.(payload := d.payload);
    c.Tick().With(if d.changed then m.SetCursor(d.next) else m)
  }

  function RedirectFailed(m: Msg, d: Redirect, step: StepDef, key: string, text: string): Msg {
    m.(payload := d.payload).AddError(step.name, Raised(text)).MarkFinished(key, SFailed, Some(Raised(text)))
  }

  function AfterRedirect(r: Config, w: World, c: Run, step: StepDef, i: nat, key: string, proceed: bool): (f: Flow)
    requires c.m.Valid()
    ensures Continues(c, f)
  {
    var d := w.redirect(c.t, c.m, step, i);
    match d.err
    case None => Conclude(r, w, Redirected(c, d).Emit(Ended(i)), proceed)
    case Some(text) =>
      var m := RedirectFailed(c.m, d, step, key, text);
      if r.policy == StopOnError then Abort(r, w, c.Tick().With(m), i, StepFailed(step.name, text))
      else Conclude(r, w, Redirected(c.With(m), d), proceed)
  }

  function AfterSuccess(r: Config, w: World, c: Run, step: StepDef, i: nat, key: string, proceed: bool): (f: Flow)
    requires c.m.Valid()
    ensures Continues(c, f)
  {
    var status := if proceed then SSuccess else SStopped;
    var c1 := c.With(c.m.AddHistory(step.name, false, status).MarkFinished(key, status, None));
    if step.name in r.controllers then AfterRedirect(r, w, c1, step, i, key, proceed)
    else Conclude(r, w, c1.Emit(Ended(i)), proceed)
  }

  function Execute(r: Config, w: World, c: Run, i: nat, key: string): (f: Flow)
    requires i < |c.m.slip|
    requires c.m.Valid()
    ensures Continues(c, f)
  {
    var step := c.m.slip[i];
    var (c1, res) := Attempt(w, c, step, i, key, 1);
    match res
    case Proceeds(proceed) => AfterSuccess(r, w, c1, step, i, key, proceed)
    case Fails(err) => AfterFailure(r, w, c1, step, i, key, err)
  }

  function KeyFacts(r: Config, m: Msg, step: StepDef, i: nat): StepKeys.Facts {
    var workflow := if m.Header("workflow") == "" then r.workflow else m.Header("workflow");
    StepKeys.Facts(workflow, m.id, m.correlationID, step.name, step.id, i)
  }

  function KeyOf(r: Config, w: World, c: Run, i: nat): string
    requires i < |c.m.slip|
  {
    StepKeys.Key(r.template, KeyFacts(r, c.m, c.m.slip[i], i), w.order(c.t))
  }

  predicate AlreadyDone(m: Msg, key: string) { key in m.states && m.states[key].status == SSuccess }

  /** After NextStep has moved the cursor past step i. */
  function Dispatch(r: Config, w: World, c: Run, i: nat): (f: Flow)
    requires i < |c.m.slip|
    requires c.m.Valid()
    ensures Continues(c, f)
  {
    var step := c.m.slip[i];
    if step.name !in r.handlers then
      var c1 := c.With(c.m.AddError(step.name, NoHandler(step.name)));
      if r.policy == StopOnError then Abort(r, w, c1, i, NoHandler(step.name)) else Persist(r, w, c1)
    else
      var key := KeyOf(r, w, c, i);
      if r.idempotent && AlreadyDone(c.m, key) then
        Persist(r, w, c.With(c.m.AddHistory(step.name, true, SIdempotentSkip).SetCursor(i + 1)))
      else
        var f := Persist(r, w, c.With(c.m.MarkRunning(key, step, i)));
        if f.Return? then f else Execute(r, w, f.run, i, key)
  }

  /** NextStep and its save, which puts the cursor back on the step for a moment. */
  function Enter(r: Config, w: World, c: Run): (f: Flow)
    requires c.m.cursor < |c.m.slip|
    ensures f.run.t >= c.t && Grows(c.log + [Entered(c.m.cursor)], f.run.log) && !f.Break?
    ensures SavesFor(c.m.id, c.log, f.run.log)
    ensures f.run.m == if f.Next? then c.m.SetCursor(c.m.cursor + 1) else c.m
  {
    var f := Persist(r, w, c.Emit(Entered(c.m.cursor)));
    if f.Return? then f else Next(f.run.With(f.run.m.SetCursor(c.m.cursor + 1)))
  }

  function Visit(r: Config, w: World, c: Run): (f: Flow)
    requires c.m.cursor < |c.m.slip|
    ensures Continues(c.Emit(Entered(c.m.cursor)), f)
  {
    var f := Enter(r, w, c);
    if f.Return? then f else Dispatch(r, w, f.run, c.m.cursor)
  }

  function Iterate(r: Config, w: World, c: Run): (f: Flow)
    requires c.m.Valid()
    ensures f.run.t > c.t && c.log <= f.run.log && Keeps(c.m, f.run.m) && SavesFor(c.m.id, c.log, f.run.log)
    ensures f.Next? ==> !w.Cancelled(c.t) && c.m.cursor < |c.m.slip|
    ensures if w.Cancelled(c.t) || c.m.cursor >= |c.m.slip| then Grows(c.log, f.run.log)
            else Continues(c.Tick().Emit(Entered(c.m.cursor)), f)
  {
    if w.Cancelled(c.t) then
      Return(SaveState(r, w, c.Tick().With(c.m.SetStatus(Cancelled)), true).0, ContextCancelled)
    else if c.m.cursor >= |c.m.slip| then Break(c.Tick())
    else Visit(r, w, c.Tick())
  }

  function Finish(r: Config, w: World, c: Run): (res: (Run, Option<Fault>))
    ensures Grows(c.log, res.0.log) && SavesFor(c.m.id, c.log, res.0.log) && res.0.m.id == c.m.id
  {
    var m := if c.m.status in {Running, Blank} then c.m.SetStatus(Completed) else c.m;
    var (c', ok) := SaveState(r, w, c.With(m), false);
    (c', if ok then None else Some(SaveFailed))
  }

  function Loop(r: Config, w: World, c: Run): (res: (Run, Option<Fault>))
    requires c.m.Valid()
    ensures c.log <= res.0.log && SavesFor(c.m.id, c.log, res.0.log) && res.0.m.id == c.m.id
    decreases if w.live > c.t then w.live - c.t else 0
  {
    var f := Iterate(r, w, c);
    match f
    case Next(c') => Loop(r, w, c')
    case Break(c') => Finish(r, w, c')
    case Return(c', e) => (c', Some(e))
  }

  function Labelled(r: Config, m: Msg): Msg {
    var h := if r.workflow != "" && m.Header("workflow") == "" then m.headers["workflow" := r.workflow] else m.headers;
    var m1 := m.(headers := h, status := Running);
    if r.version != "" && m1.Header("workflow_version") == "" then
      m1.(headers := h["workflow_version" := r.version]) else m1
  }

  /** Router.Process on a message. */
  function Process(r: Config, w: World, c: Run): (res: (Run, Option<Fault>))
    requires c.m.Valid()
    ensures c.log <= res.0.log && SavesFor(c.m.id, c.log, res.0.log) && res.0.m.id == c.m.id
  {
    var f := Persist(r, w, c.With(Labelled(r, c.m)));
    if f.Return? then (f.run, Some(f.err)) else Loop(r, w, f.run)
  }
}
