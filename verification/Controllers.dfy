/** The two built-in cursor controllers: jump_if and cel. */
module Controllers {
  import opened Prelude
  import opened Json
  import opened Messages
  import opened RouterSpec
  import opened Conditions
  import Durability
  import Progress
  import Resilience
  import Text
  import Turns

  // ----- jump_if -----

  function JumpIfHandle(h: Host, payload: Object, headers: Headers, params: Object): HandlerAnswer {
    match Evaluate(h, payload, params)
    case Err(e) => HandlerFailed("jump_if: " + e.Reason(), payload, headers)
    case Ok(matched) => Handled(true, payload["jump_if_matched" := Bool(matched)], headers)
  }

  const NOT_FOUND := "target step not found"
  const NOT_AFTER := "target step must be after current step"

  /** What a jump to target adds to the payload. */
  function Jumped(payload: Object, target: string, from: nat, to: nat): Object {
    payload["jumped_to" := Str(target)]["jumped_from_cursor" := Num(from as real)]
           ["jumped_to_cursor" := Num(to as real)]
  }

  function NoJump(payload: Object): Redirect { Redirect(0, false, None, payload) }

  /** The common end of both controllers: only jumps past the current step are allowed. */
  function JumpTo(m: Msg, target: string, current: nat): Redirect {
    match FindStep(m.slip, target)
    case None => Redirect(0, false, Some(NOT_FOUND), m.payload)
    case Some(index) =>
      if index <= current then Redirect(0, false, Some(NOT_AFTER), m.payload)
      else Redirect(index, true, None, Jumped(m.payload, target, current, index))
  }

  function JumpIfNext(m: Msg, step: StepDef, current: nat): Redirect {
    if "jump_if_matched" in m.payload && m.payload["jump_if_matched"] == Bool(true) then
      JumpTo(m, Param(step.params, "to"), current)
    else NoJump(m.payload)
  }

  // ----- cel -----

  function Expression(params: Object): string {
    if Text.Blank(Param(params, "expr")) then Param(params, "expression") else Param(params, "expr")
  }

  datatype OnFalse = JumpAway | GoOn | Halt | Fail | Unsupported

  function OnFalseOf(params: Object): OnFalse {
    var text := Text.ToLower(Text.TrimSpace(Param(params, "on_false")));
    if text == "" then (if "to" in params && params["to"].Str? then JumpAway else Fail)
    else if text == "jump" then JumpAway
    else if text == "continue" then GoOn
    else if text == "stop" then Halt
    else if text == "error" || text == "fail" then Fail
    else Unsupported
  }

  /** The payload after the outcome of the expression is noted. */
  function Noted(payload: Object, params: Object, matched: bool): Object {
    var target := if Text.Blank(Param(params, "target")) then "cel_passed" else Param(params, "target");
    payload[target := Bool(matched)]["cel_passed" := Bool(matched)]
  }

  function CELHandle(h: Host, payload: Object, headers: Headers, params: Object): HandlerAnswer {
    var expr := Expression(params);
    if Text.Blank(expr) then HandlerFailed("cel: expr is required", payload, headers)
    else match h.cel(expr, payload, headers)
         case Err(e) => HandlerFailed("cel: " + e, payload, headers)
         case Ok(matched) =>
           var noted := Noted(payload, params, matched);
           if matched then Handled(true, noted, headers) else CELOnFalse(noted, headers, params, expr)
  }

  function CELOnFalse(payload: Object, headers: Headers, params: Object, expr: string): HandlerAnswer {
    match OnFalseOf(params)
    case JumpAway =>
      if Text.Blank(Param(params, "to")) then
        HandlerFailed("cel: to is required when on_false is jump", payload, headers)
      else Handled(true, payload["cel_jump_to" := Str(Param(params, "to"))], headers)
    case GoOn => Handled(true, payload, headers)
    case Halt => Handled(false, payload["cel_stopped" := Bool(true)], headers)
    case Fail =>
      HandlerFailed(if Text.Blank(Param(params, "message")) then "expression evaluated to false: " + expr
                    else Param(params, "message"), payload, headers)
    case Unsupported => HandlerFailed("cel: unsupported on_false value", payload, headers)
  }

  /** The jump that a payload has pending. */
  function Pending(payload: Object): string { Param(payload, "cel_jump_to") }

  function CELNext(m: Msg, step: StepDef, current: nat): Redirect {
    if Text.Blank(Pending(m.payload)) then NoJump(m.payload)
    else
      var d := JumpTo(m, Pending(m.payload), current);
      if d.changed then d.(payload := d.payload["cel_jump_to" := Str("")]) else d
  }

  // ----- The handlers, on the message -----

  /** The return values of Handle: proceed, and the error if there is one. */
  datatype Reply = Reply(proceed: bool, err: Option<string>)

  function AnswerOf(rep: Reply, m: Msg): HandlerAnswer {
    match rep.err
    case None => Handled(rep.proceed, m.payload, m.headers)
    case Some(text) => HandlerFailed(text, m.payload, m.headers)
  }

  class JumpIfHandler {
    const host: Host

    constructor (host: Host)
      ensures this.host == host
    {
      this.host := host;
    }

    method Handle(msg: Message, params: Object) returns (rep: Reply)
      modifies msg`payload
      ensures AnswerOf(rep, msg.Value()) == old(JumpIfHandle(host, msg.payload, msg.headers, params))
    {
      var matched := Evaluate(host, msg.payload, params);
      if matched.Err? {
        return Reply(false, Some("jump_if: " + matched.error.Reason()));
      }
      msg.Set("jump_if_matched", Bool(matched.value));
      rep := Reply(true, None);
    }

    method NextCursor(msg: Message, step: StepDef, current: nat) returns (next: int, changed: bool, err: Option<string>)
      modifies msg`payload
      ensures next >= 0 && Redirect(next, changed, err, msg.payload) == old(JumpIfNext(msg.Value(), step, current))
    {
      if "jump_if_matched" !in msg.payload || msg.payload["jump_if_matched"] != Bool(true) {
        return 0, false, None;
      }
      next, changed, err := Jump(msg, Param(step.params, "to"), current);
    }
  }

  method Jump(msg: Message, target: string, current: nat) returns (next: int, changed: bool, err: Option<string>)
    modifies msg`payload
    ensures next >= 0 && Redirect(next, changed, err, msg.payload) == old(JumpTo(msg.Value(), target, current))
  {
    var index := msg.FindStepIndex(target);
    if index.None? {
      return 0, false, Some(NOT_FOUND);
    }
    if index.value <= current {
      return 0, false, Some(NOT_AFTER);
    }
    msg.Set("jumped_to", Str(target));
    msg.Set("jumped_from_cursor", Num(current as real));
    msg.Set("jumped_to_cursor", Num(index.value as real));
    return index.value, true, None;
  }

  class CELHandler {
    const host: Host

    constructor (host: Host)
      ensures this.host == host
    {
      this.host := host;
    }

    method Handle(msg: Message, params: Object) returns (rep: Reply)
      modifies msg`payload
      ensures AnswerOf(rep, msg.Value()) == old(CELHandle(host, msg.payload, msg.headers, params))
    {
      var expr := Param(params, "expr");
      if Text.Blank(expr) {
        expr := Param(params, "expression");
      }
      if Text.Blank(expr) {
        return Reply(false, Some("cel: expr is required"));
      }
      var matched := host.cel(expr, msg.payload, msg.headers);
      if matched.Err? {
        return Reply(false, Some("cel: " + matched.error));
      }
      var target := Param(params, "target");
      if Text.Blank(target) {
        target := "cel_passed";
      }
      msg.Set(target, Bool(matched.value));
      msg.Set("cel_passed", Bool(matched.value));
      if matched.value {
        return Reply(true, None);
      }
      rep := False(msg, params, expr);
    }

    method False(msg: Message, params: Object, expr: string) returns (rep: Reply)
      modifies msg`payload
      ensures AnswerOf(rep, msg.Value()) == old(CELOnFalse(msg.payload, msg.headers, params, expr))
    {
      match OnFalseOf(params) {
        case JumpAway =>
          if Text.Blank(Param(params, "to")) {
            return Reply(false, Some("cel: to is required when on_false is jump"));
          }
          msg.Set("cel_jump_to", Str(Param(params, "to")));
          return Reply(true, None);
        case GoOn =>
          return Reply(true, None);
        case Halt =>
          msg.Set("cel_stopped", Bool(true));
          return Reply(false, None);
        case Fail =>
          var message := Param(params, "message");
          if Text.Blank(message) {
            message := "expression evaluated to false: " + expr;
          }
          return Reply(false, Some(message));
        case Unsupported =>
          return Reply(false, Some("cel: unsupported on_false value"));
      }
    }

    method NextCursor(msg: Message, step: StepDef, current: nat) returns (next: int, changed: bool, err: Option<string>)
      modifies msg`payload
      ensures next >= 0 && Redirect(next, changed, err, msg.payload) == old(CELNext(msg.Value(), step, current))
    {
      var target := Pending(msg.payload);
      if Text.Blank(target) {
        return 0, false, None;
      }
      next, changed, err := Jump(msg, target, current);
      if changed {
        msg.Set("cel_jump_to", Str(""));
      }
    }
  }

  // ----- What the controllers guarantee -----

  /** A world whose redirects come from the built-in controllers. */
  ghost predicate BuiltIn(w: World) {
    forall t, m, step, i ::
      w.redirect(t, m, step, i) == if step.name == "cel" then CELNext(m, step, i) else JumpIfNext(m, step, i)
  }

  /** The built-in controllers only jump forward. */
  lemma BuiltInsGoForward(w: World)
    requires BuiltIn(w)
    ensures Durability.ForwardWorld(w)
  {
    forall t, m, step, i ensures w.redirect(t, m, step, i).changed ==> w.redirect(t, m, step, i).next > i {
      assert w.redirect(t, m, step, i) == if step.name == "cel" then CELNext(m, step, i) else JumpIfNext(m, step, i);
    }
  }

  /** A target after the current step. */
  predicate Ahead(slip: seq<StepDef>, target: string, i: nat) {
    FindStep(slip, target).Some? && FindStep(slip, target).value > i
  }

  /** jump_if jumps exactly when its condition holds and its target lies ahead, lets the slip go on when
      the condition does not hold, and otherwise fails: whatever the payload said before. */
  lemma JumpIfJumpsExactlyWhenMatched(h: Host, m: Msg, step: StepDef, i: nat)
    requires Evaluate(h, m.payload, step.params).Ok?
    ensures var a := JumpIfHandle(h, m.payload, m.headers, step.params);
            var d := JumpIfNext(m.(payload := a.payload, headers := a.headers), step, i);
            var matched, to := Evaluate(h, m.payload, step.params).value, Param(step.params, "to");
            && a.Handled? && a.proceed
            && (d.changed <==> matched && Ahead(m.slip, to, i))
            && (d.changed ==> Some(d.next) == FindStep(m.slip, to))
            && (d.err.Some? <==> matched && !Ahead(m.slip, to, i))
  {
    var matched := Evaluate(h, m.payload, step.params).value;
    var payload := m.payload["jump_if_matched" := Bool(matched)];
    NextOfMatched(m.(payload := payload), step, i, matched);
  }

  lemma NextOfMatched(m: Msg, step: StepDef, i: nat, matched: bool)
    requires "jump_if_matched" in m.payload && m.payload["jump_if_matched"] == Bool(matched)
    ensures JumpIfNext(m, step, i) == if matched then JumpTo(m, Param(step.params, "to"), i) else NoJump(m.payload)
  {}

  /** The cel step asks for a jump: its expression is false and it is configured to jump. */
  predicate Asks(h: Host, m: Msg, params: Object) {
    && !Text.Blank(Expression(params))
    && h.cel(Expression(params), m.payload, m.headers) == Ok(false)
    && OnFalseOf(params) == JumpAway && !Text.Blank(Param(params, "to"))
  }

  /** The jump that was already pending when the step noted its outcome. */
  function Leftover(h: Host, m: Msg, params: Object): string {
    Pending(Noted(m.payload, params, h.cel(Expression(params), m.payload, m.headers) == Ok(true)))
  }

  /** Where the message ends up pending after a cel step that did not fail. */
  lemma PendingAfterCEL(h: Host, m: Msg, params: Object)
    requires CELHandle(h, m.payload, m.headers, params).Handled?
    ensures Pending(CELHandle(h, m.payload, m.headers, params).payload)
            == if Asks(h, m, params) then Param(params, "to") else Leftover(h, m, params)
  {
    var matched := h.cel(Expression(params), m.payload, m.headers).value;
    var noted := Noted(m.payload, params, matched);
    if !matched {
      PendingOnFalse(noted, m.headers, params, Expression(params));
    }
  }

  lemma PendingOnFalse(payload: Object, headers: Headers, params: Object, expr: string)
    requires CELOnFalse(payload, headers, params, expr).Handled?
    ensures Pending(CELOnFalse(payload, headers, params, expr).payload)
            == if OnFalseOf(params) == JumpAway then Param(params, "to") else Pending(payload)
  {}

  predicate Taken(m: Msg, target: string, i: nat) { !Text.Blank(target) && Ahead(m.slip, target, i) }

  lemma CELNextTakes(m: Msg, step: StepDef, i: nat)
    ensures CELNext(m, step, i).changed <==> Taken(m, Pending(m.payload), i)
    ensures CELNext(m, step, i).changed ==> Pending(CELNext(m, step, i).payload) == ""
    ensures !CELNext(m, step, i).changed ==> Pending(CELNext(m, step, i).payload) == Pending(m.payload)
  {}

  /** A cel step jumps when and only when it asked to, its target lying ahead, exactly when it asks or
      finds no usable jump left over in the payload. */
  lemma CELJumpsExactlyWhenAsked(h: Host, m: Msg, step: StepDef, i: nat)
    requires CELHandle(h, m.payload, m.headers, step.params).Handled?
    ensures var a := CELHandle(h, m.payload, m.headers, step.params);
            var d := CELNext(m.(payload := a.payload, headers := a.headers), step, i);
            (d.changed <==> Asks(h, m, step.params) && Ahead(m.slip, Param(step.params, "to"), i))
            <==> Asks(h, m, step.params) || !Taken(m, Leftover(h, m, step.params), i)
  {
    var a := CELHandle(h, m.payload, m.headers, step.params);
    PendingAfterCEL(h, m, step.params);
    CELNextTakes(m.(payload := a.payload, headers := a.headers), step, i);
  }

  /** How a jump is left over: a cel step that asked for a target that is not ahead fails, and its
      target stays pending. A later cel step that asks for nothing then jumps there if it can. */
  lemma FailedJumpStaysPending(h: Host, m: Msg, step: StepDef, i: nat)
    requires Asks(h, m, step.params) && !Ahead(m.slip, Param(step.params, "to"), i)
    ensures var a := CELHandle(h, m.payload, m.headers, step.params);
            var d := CELNext(m.(payload := a.payload, headers := a.headers), step, i);
            a.Handled? && d.err.Some? && Pending(d.payload) == Param(step.params, "to")
  {
    var a := CELHandle(h, m.payload, m.headers, step.params);
    PendingAfterCEL(h, m, step.params);
    CELNextTakes(m.(payload := a.payload, headers := a.headers), step, i);
  }

  /** A successful jump clears what was pending, so that no jump is taken twice. */
  lemma TakenJumpIsCleared(m: Msg, step: StepDef, i: nat, later: StepDef, j: nat)
    requires CELNext(m, step, i).changed
    ensures !CELNext(m.(payload := CELNext(m, step, i).payload), later, j).changed
  {
    CELNextTakes(m, step, i);
    CELNextTakes(m.(payload := CELNext(m, step, i).payload), later, j);
    BlankIsBlank();
  }

  lemma BlankIsBlank()
    ensures Text.Blank("")
  {}

  // ----- What a cel step answers, by the texts of its parameters -----

  /** on_false as the step reads it. */
  function OnFalseText(params: Object): string { Text.ToLower(Text.TrimSpace(Param(params, "on_false"))) }

  /** It is configured to jump: by on_false, or by a target alone. */
  predicate ConfiguredToJump(params: Object) {
    OnFalseText(params) == "jump" || (OnFalseText(params) == "" && "to" in params && params["to"].Str?)
  }

  /** The payload with the outcome under `target`, if that is named, and under "cel_passed". */
  function Marked(payload: Object, params: Object, matched: bool): Object {
    (if Text.Blank(Param(params, "target")) then payload else payload[Param(params, "target") := Bool(matched)])
      ["cel_passed" := Bool(matched)]
  }

  /** The expression: `expr`, or `expression` if that is blank. */
  predicate Says(h: Host, payload: Object, headers: Headers, params: Object, outcome: Result<bool, string>) {
    var expr := if Text.Blank(Param(params, "expr")) then Param(params, "expression") else Param(params, "expr");
    !Text.Blank(expr) && h.cel(expr, payload, headers) == outcome
  }

  /** The answer of a false expression, on the payload marked with it. */
  predicate FalseReads(marked: Object, params: Object, a: HandlerAnswer) {
    var text, to := OnFalseText(params), Param(params, "to");
    && (text == "stop" <==> a.Handled? && !a.proceed)
    && (text == "stop" ==> a.payload == marked["cel_stopped" := Bool(true)])
    && (text == "continue" || (ConfiguredToJump(params) && !Text.Blank(to)) <==> a.Handled? && a.proceed)
    && (text == "continue" ==> a.payload == marked)
    && (ConfiguredToJump(params) && !Text.Blank(to) ==> a.payload == marked["cel_jump_to" := Str(to)])
    && (a.HandlerFailed? ==> a.payload == marked)
  }

  /** A false expression that is configured to fail, or to nothing at all, fails with the configured message, or else
      names the expression. */
  lemma FalseIsTold(payload: Object, headers: Headers, params: Object, expr: string)
    requires OnFalseText(params) in {"error", "fail"} || (OnFalseText(params) == "" && !ConfiguredToJump(params))
    ensures CELOnFalse(payload, headers, params, expr)
            == HandlerFailed(if Text.Blank(Param(params, "message")) then "expression evaluated to false: " + expr
                             else Param(params, "message"), payload, headers)
  {}

  lemma FalseMeans(payload: Object, headers: Headers, params: Object, expr: string)
    ensures var a := CELOnFalse(payload, headers, params, expr); FalseReads(payload, params, a) && a.headers == headers
  {
    OnFalseReads(params);
  }

  lemma OnFalseReads(params: Object)
    ensures var text := OnFalseText(params);
            && (OnFalseOf(params) == Halt <==> text == "stop") && (OnFalseOf(params) == GoOn <==> text == "continue")
            && (OnFalseOf(params) == JumpAway <==> ConfiguredToJump(params))
  {}

  lemma MarksNoted(payload: Object, params: Object, matched: bool)
    ensures Noted(payload, params, matched) == Marked(payload, params, matched)
  {}

  /** A true expression lets the slip go on. A false one stops it exactly for "stop", lets it go on without asking for
      a jump for "continue", asks for a jump to a target that is not blank, and fails for everything else. */
  lemma CELAnswers(h: Host, payload: Object, headers: Headers, params: Object)
    ensures var a := CELHandle(h, payload, headers, params);
            && a.headers == headers
            && (Says(h, payload, headers, params, Ok(true)) ==>
                  a == Handled(true, Marked(payload, params, true), headers))
            && (Says(h, payload, headers, params, Ok(false)) ==> FalseReads(Marked(payload, params, false), params, a))
            && (!Says(h, payload, headers, params, Ok(true)) && !Says(h, payload, headers, params, Ok(false)) ==>
                  a.HandlerFailed? && a.payload == payload)
  {
    MarksNoted(payload, params, true);
    MarksNoted(payload, params, false);
    FalseMeans(Noted(payload, params, false), headers, params, Expression(params));
    OutcomeDecides(h, payload, headers, params);
  }

  lemma OutcomeDecides(h: Host, payload: Object, headers: Headers, params: Object)
    ensures var a := CELHandle(h, payload, headers, params);
            if Says(h, payload, headers, params, Ok(true)) then
              a == Handled(true, Noted(payload, params, true), headers)
            else if Says(h, payload, headers, params, Ok(false)) then
              a == CELOnFalse(Noted(payload, params, false), headers, params, Expression(params))
            else a.HandlerFailed? && a.payload == payload && a.headers == headers
  {}

  /** The cel steps of a world are answered by the handler. */
  ghost predicate RunsCEL(w: World, h: Host) {
    forall t: nat, step: StepDef, payload: Object, headers: Headers | step.name == "cel" ::
      w.handle(t, step, payload, headers) == CELHandle(h, payload, headers, step.params)
  }

  /** A cel step whose turn has come, that is not skipped as done, and whose expression is false. */
  ghost predicate GateCloses(r: Config, w: World, h: Host, c: Run) {
    && c.m.Valid() && Turns.Turning(w, c) && RunsCEL(w, h)
    && var step := c.m.slip[c.m.cursor];
      && step.name == "cel" && "cel" in r.handlers
      && Says(h, c.m.payload, c.m.headers, step.params, Ok(false))
      && forall key | Turns.KeyReads(r, w, c, key) :: !(r.idempotent && AlreadyDone(c.m, key))
  }

  lemma FirstAnswer(w: World, e: Run, step: StepDef, i: nat, key: string)
    ensures var a := w.handle(e.t + 1, step, e.m.payload, e.m.headers);
            a.Handled? ==> Attempt(w, e, step, i, key, 1).1 == Proceeds(a.proceed)
  {
    assert Resilience.Delay(step.resilience.retry, 1, w.random(e.t)) == 0;
  }

  /** Its handler answers at once, and its answer decides, unless a save fails before. */
  lemma GateAnswers(r: Config, w: World, h: Host, c: Run) returns (key: string, t: nat, m: Msg)
    requires GateCloses(r, w, h, c) && OnFalseText(c.m.slip[c.m.cursor].params) in {"stop", "continue"}
    ensures var f, step := Iterate(r, w, c), c.m.slip[c.m.cursor];
            || Turns.Unsaved(r, c, f)
            || Turns.SucceededAs(r, w, c, f, step, key, OnFalseText(step.params) == "continue", t, m)
  {
    var step, e := c.m.slip[c.m.cursor], c;
    key, e, t, m := Turns.WhatATurnDoes(r, w, c);
    CELAnswers(h, c.m.payload, c.m.headers, step.params);
    FirstAnswer(w, e, step, c.m.cursor, key);
  }

  /** A gate that is configured to stop ends the call: no step is entered after it, and a call without an error leaves
      the message stopped. */
  lemma GateStops(r: Config, w: World, h: Host, c: Run)
    requires GateCloses(r, w, h, c) && OnFalseText(c.m.slip[c.m.cursor].params) == "stop"
    ensures Turns.Ahead(r, w, c) == [c.m.cursor]
    ensures Loop(r, w, c).1.None? ==> Loop(r, w, c).0.m.status == Stopped
  {
    var key, t, m := GateAnswers(r, w, h, c);
    StopsThere(r, w, c, c.m.slip[c.m.cursor], key, t, m);
  }

  /** So it does in whichever turn of a call it comes to be evaluated. */
  lemma GateEndsTheCall(r: Config, w: World, h: Host, c0: Run, runs: seq<Run>, c: Run)
    requires Turns.TurnsOfCall(r, w, c0, runs) && runs[|runs| - 1] == c
    requires GateCloses(r, w, h, c) && OnFalseText(c.m.slip[c.m.cursor].params) == "stop"
    ensures var (last, err) := Process(r, w, c0);
            && Progress.Visits(last.log) == Progress.Visits(c.log) + [c.m.cursor]
            && (err.None? ==> last.m.status == Stopped)
  {
    Turns.EntersAhead(r, w, c0, runs);
    GateStops(r, w, h, c);
  }

  lemma StopsThere(r: Config, w: World, c: Run, step: StepDef, key: string, t: nat, m: Msg)
    requires c.m.Valid() && c.m.cursor < |c.m.slip|
    requires var f := Iterate(r, w, c); Turns.Unsaved(r, c, f) || Turns.SucceededAs(r, w, c, f, step, key, false, t, m)
    requires Turns.Turning(w, c)
    ensures Turns.Ahead(r, w, c) == [c.m.cursor]
    ensures Loop(r, w, c).1.None? ==> Loop(r, w, c).0.m.status == Stopped
  {
    var f := Iterate(r, w, c);
    assert f.Return? || (f.Break? && f.run.m.status == Stopped);
    Turns.NextIsAtTheCursor(r, w, c);
  }

  /** A gate that is configured to continue does not: unless a save or a jump that was left over fails, the slip goes
      on. */
  lemma GateContinues(r: Config, w: World, h: Host, c: Run)
    requires GateCloses(r, w, h, c) && OnFalseText(c.m.slip[c.m.cursor].params) == "continue"
    ensures !Iterate(r, w, c).Break?
    ensures Iterate(r, w, c).Next? && "cel" !in r.controllers ==> Iterate(r, w, c).run.m.cursor == c.m.cursor + 1
  {
    var key, t, m := GateAnswers(r, w, h, c);
  }

  // ----- What a jump records -----

  /** A jump of either controller records its target and where it came from and went to; a jump that fails, or that is
      not asked for, records nothing. */
  lemma JumpIsRecorded(m: Msg, target: string, i: nat)
    ensures var d := JumpTo(m, target, i);
            if Ahead(m.slip, target, i) then
              && d.changed && d.err.None? && d.next > i
              && d.payload == m.payload + map["jumped_to" := Str(target), "jumped_from_cursor" := Num(i as real),
                                              "jumped_to_cursor" := Num(d.next as real)]
            else !d.changed && d.err.Some? && d.payload == m.payload
  {}
}
