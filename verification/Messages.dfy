/** The message, its routing slip, its audit trail and its snapshots. `Msg` is the value of a
    message; the class `Message` is the object whose fields the router updates. */
module Messages {
  import opened Prelude
  import opened Json
  import Text
  import Resilience

  type Headers = map<string, string>

  datatype StepDef = StepDef(id: string, name: string, params: Object, resilience: Resilience.Policy)

  datatype MessageStatus = Blank | Created | Loaded | Running | Completed | Stopped | Failed | Cancelled

  datatype StepStatus = SRunning | SSuccess | SStopped | SFailed | SSkipped | SJumped | SIdempotentSkip

  datatype HistoryEntry = HistoryEntry(step: string, skipped: bool, status: StepStatus, attempt: int)

  /** Errors of the engine; `Plain` is an error restored from its text. */
  datatype Fault =
    | Raised(text: string)
    | ContextCancelled
    | SaveFailed
    | NoHandler(step: string)
    | StepFailed(step: string, cause: string)
    | TargetMissing(step: string, to: string)
    | UnknownAction(step: string, action: string)
    | Plain(text: string)
  {
    function Text(): string {
      match this
      case Raised(t) => t
      case Plain(t) => t
      case ContextCancelled => "context cancelled before completing slip"
      case SaveFailed => "routing-slip: save state"
      case NoHandler(s) => "no handler registered for step " + s
      case StepFailed(s, c) => "step " + s + ": " + c
      case TargetMissing(s, to) => "step " + s + ": failure jump target " + to + " not found"
      case UnknownAction(s, a) => "step " + s + ": unknown on_failure action " + a
    }
  }

  datatype StepError = StepError(step: string, err: Option<Fault>) {
    function Saved(): SavedError {
      SavedError(step, match err case Some(f) => f.Text() case None => "")
    }
  }

  datatype SavedError = SavedError(step: string, text: string)

  datatype StepState = StepState(
    key: string, stepID: string, stepName: string, stepIndex: int,
    status: StepStatus, attempts: int, lastError: string)

  datatype Snapshot = Snapshot(
    id: string, workflow: string, version: string, status: MessageStatus, createdAt: int,
    payload: Object, headers: Headers, correlationID: string, traceID: string,
    attempt: int, slip: seq<StepDef>, cursor: int,
    history: seq<HistoryEntry>, errors: seq<SavedError>, states: map<string, StepState>)

  function SavedErrors(es: seq<StepError>): (r: seq<SavedError>)
    ensures |r| == |es|
  {
    seq(|es|, i requires 0 <= i < |es| => es[i].Saved())
  }

  function RestoredErrors(es: seq<SavedError>): (r: seq<StepError>)
    ensures |r| == |es|
  {
    seq(|es|, i requires 0 <= i < |es| => StepError(es[i].step, Some(Plain(es[i].text))))
  }

  /** The first index in [from, |slip|) that satisfies p. */
  function FirstIndex(slip: seq<StepDef>, p: StepDef -> bool, from: nat): (r: Option<nat>)
    requires from <= |slip|
    ensures r.Some? ==> from <= r.value < |slip| && p(slip[r.value])
    ensures r.Some? ==> forall i | from <= i < r.value :: !p(slip[i])
    ensures r.None? ==> forall i | from <= i < |slip| :: !p(slip[i])
    decreases |slip| - from
  {
    if from == |slip| then None
    else if p(slip[from]) then Some(from)
    else FirstIndex(slip, p, from + 1)
  }

  /** A step by its id or, failing that, by its handler name. */
  function FindStep(slip: seq<StepDef>, ref: string): (r: Option<nat>)
    ensures r.Some? ==> r.value < |slip| && (slip[r.value].id == ref || slip[r.value].name == ref)
    ensures r.None? ==> Text.Blank(ref) || forall s | s in slip :: s.id != ref && s.name != ref
  {
    if Text.Blank(ref) then None
    else match FirstIndex(slip, (s: StepDef) => s.id == ref, 0)
         case Some(i) => Some(i)
         case None => FirstIndex(slip, (s: StepDef) => s.name == ref, 0)
  }

  const NO_STATE := StepState("", "", "", 0, SRunning, 0, "")

  datatype Msg = Msg(
    id: string, createdAt: int, payload: Object, headers: Headers, correlationID: string,
    traceID: string, attempt: int, status: MessageStatus, slip: seq<StepDef>, cursor: nat,
    history: seq<HistoryEntry>, errors: seq<StepError>, states: map<string, StepState>)
  {
    /** The cursor never leaves the slip. */
    predicate Valid() { cursor <= |slip| }

    function SetCursor(c: int): (m: Msg)
      ensures m.Valid()
    {
      this.(cursor := if c < 0 then 0 else if c > |slip| then |slip| else c)
    }

    function SetStatus(s: MessageStatus): Msg { this.(status := s) }

    function AddHistory(step: string, skipped: bool, s: StepStatus): Msg {
      this.(history := history + [HistoryEntry(step, skipped, s, attempt)])
    }

    function AddError(step: string, f: Fault): Msg {
      this.(errors := errors + [StepError(step, Some(f))])
    }

    function StateOf(key: string): StepState { if key in states then states[key] else NO_STATE }

    function MarkRunning(key: string, step: StepDef, index: nat): Msg {
      this.(states := states[key := StepState(key, step.id, step.name, index, SRunning,
                                              StateOf(key).attempts + 1, "")])
    }

    function MarkFinished(key: string, s: StepStatus, err: Option<Fault>): Msg {
      var was := StateOf(key);
      this.(states := states[key := was.(key := key, status := s, attempts := Max(was.attempts, attempt),
                                         lastError := if err.Some? then err.value.Text() else was.lastError)])
    }

    function Remaining(): int { |slip| - cursor }

    function Header(name: string): string { if name in headers then headers[name] else "" }

    function ToSnapshot(): Snapshot {
      Snapshot(id, Header("workflow"), Header("workflow_version"), status, createdAt, payload, headers,
               correlationID, traceID, attempt, slip, cursor, history, SavedErrors(errors), states)
    }
  }

  function NewMsg(id: string, now: int, payload: Object): (m: Msg)
    ensures m.Valid()
  {
    Msg(id, now, payload, map[], "", "", 0, Created, [], 0, [], [], map[])
  }

  function Restore(s: Snapshot): (m: Msg)
    ensures m.Valid()
  {
    Msg(s.id, s.createdAt, s.payload, s.headers, s.correlationID, s.traceID, s.attempt,
        if s.status == Blank then Loaded else s.status, s.slip, 0,
        s.history, RestoredErrors(s.errors), s.states).SetCursor(s.cursor)
  }

  /** Restoring a snapshot gives the message back: the same cursor without clamping, the same
      slip, payload, history and states, and the errors by their text. */
  lemma SnapshotRoundTrip(m: Msg)
    requires m.Valid()
    ensures var r := Restore(m.ToSnapshot());
            && r == m.(status := if m.status == Blank then Loaded else m.status, errors := r.errors)
            && SavedErrors(r.errors) == SavedErrors(m.errors)
            && (m.status != Blank ==> r.ToSnapshot() == m.ToSnapshot())
  {
    var r := Restore(m.ToSnapshot());
    assert SavedErrors(r.errors) == SavedErrors(m.errors);
  }

  /** Conversely a snapshot whose cursor lies in its slip is what its restored message saves. */
  lemma RestoreThenSnapshot(s: Snapshot)
    requires 0 <= s.cursor <= |s.slip| && s.status != Blank
    ensures Restore(s).ToSnapshot()
            == s.(workflow := Restore(s).Header("workflow"), version := Restore(s).Header("workflow_version"))
  {
    assert SavedErrors(RestoredErrors(s.errors)) == s.errors;
  }

  // ----- The object -----

  class Message {
    const id: string
    const createdAt: int
    var payload: Object
    var headers: Headers
    var correlationID: string
    var traceID: string
    var attempt: int
    var status: MessageStatus
    var slip: seq<StepDef>
    var cursor: nat
    var history: seq<HistoryEntry>
    var errors: seq<StepError>
    var states: map<string, StepState>

    function Value(): (m: Msg)
      reads this
    {
      Msg(id, createdAt, payload, headers, correlationID, traceID, attempt, status, slip, cursor,
          history, errors, states)
    }

    constructor (id: string, now: int, payload: Object)
      ensures Value() == NewMsg(id, now, payload)
    {
      this.id := id;
      createdAt := now;
      this.payload := payload;
      headers, correlationID, traceID := map[], "", "";
      attempt, status, slip, cursor := 0, Created, [], 0;
      history, errors, states := [], [], map[];
    }

    constructor FromSnapshot(s: Snapshot)
      ensures Value() == Restore(s)
    {
      id, createdAt, payload, headers := s.id, s.createdAt, s.payload, s.headers;
      correlationID, traceID, attempt := s.correlationID, s.traceID, s.attempt;
      status, slip, cursor := s.status, s.slip, 0;
      history, errors, states := s.history, RestoredErrors(s.errors), s.states;
      new;
      if status == Blank {
        status := Loaded;
      }
      SetCursor(s.cursor);
    }

    method AttachSlip(steps: seq<StepDef>)
      modifies this`slip
      ensures Value() == old(Value()).(slip := old(slip) + steps)
    {
      slip := slip + steps;
    }

    method NextStep() returns (step: Option<StepDef>)
      modifies this`cursor
      ensures old(cursor) >= |slip| ==> step == None && cursor == old(cursor)
      ensures old(cursor) < |slip| ==> step == Some(slip[old(cursor)]) && cursor == old(cursor) + 1
    {
      if cursor >= |slip| {
        return None;
      }
      step := Some(slip[cursor]);
      cursor := cursor + 1;
    }

    method SetCursor(c: int)
      modifies this`cursor
      ensures Value() == old(Value()).SetCursor(c)
    {
      var c' := c;
      if c' < 0 {
        c' := 0;
      }
      if c' > |slip| {
        c' := |slip|;
      }
      cursor := c';
    }

    method SetStatus(s: MessageStatus)
      modifies this`status
      ensures Value() == old(Value()).SetStatus(s)
    {
      status := s;
    }

    method Set(key: string, value: Json.Value)
      modifies this`payload
      ensures Value() == old(Value()).(payload := old(payload)[key := value])
    {
      payload := payload[key := value];
    }

    method AddHistory(step: string, skipped: bool, s: StepStatus)
      modifies this`history
      ensures Value() == old(Value()).AddHistory(step, skipped, s)
    {
      history := history + [HistoryEntry(step, skipped, s, attempt)];
    }

    method AddError(step: string, f: Fault)
      modifies this`errors
      ensures Value() == old(Value()).AddError(step, f)
    {
      errors := errors + [StepError(step, Some(f))];
    }

    method MarkStepRunning(key: string, step: StepDef, index: nat)
      modifies this`states
      ensures Value() == old(Value()).MarkRunning(key, step, index)
    {
      var state := if key in states then states[key] else NO_STATE;
      state := state.(key := key, stepID := step.id, stepName := step.name, stepIndex := index);
      state := state.(status := SRunning, attempts := state.attempts + 1, lastError := "");
      states := states[key := state];
    }

    method MarkStepFinished(key: string, s: StepStatus, err: Option<Fault>)
      modifies this`states
      ensures Value() == old(Value()).MarkFinished(key, s, err)
    {
      var state := if key in states then states[key] else NO_STATE;
      state := state.(key := key, status := s, attempts := Max(state.attempts, attempt));
      if err.Some? {
        state := state.(lastError := err.value.Text());
      }
      states := states[key := state];
    }

    method FindStepIndex(ref: string) returns (r: Option<nat>)
      ensures r == FindStep(slip, ref)
    {
      if Text.Blank(ref) {
        return None;
      }
      ghost var byID, byName := (s: StepDef) => s.id == ref, (s: StepDef) => s.name == ref;
      for index := 0 to |slip|
        invariant FirstIndex(slip, byID, 0) == FirstIndex(slip, byID, index)
      {
        if slip[index].id == ref {
          return Some(index);
        }
      }
      for index := 0 to |slip|
        invariant FirstIndex(slip, byName, 0) == FirstIndex(slip, byName, index)
      {
        if slip[index].name == ref {
          return Some(index);
        }
      }
      return None;
    }

    method TakeSnapshot() returns (s: Snapshot)
      ensures s == Value().ToSnapshot()
    {
      var workflow := if "workflow" in headers then headers["workflow"] else "";
      var version := if "workflow_version" in headers then headers["workflow_version"] else "";
      var errs: seq<SavedError> := [];
      for i := 0 to |errors|
        invariant errs == SavedErrors(errors[..i])
      {
        errs := errs + [errors[i].Saved()];
        assert errors[..i + 1] == errors[..i] + [errors[i]];
      }
      assert errors[..|errors|] == errors;
      s := Snapshot(id, workflow, version, status, createdAt, payload, headers, correlationID, traceID,
                    attempt, slip, cursor, history, errs, states);
    }
  }
}
