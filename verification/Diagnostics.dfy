/** The workflow diagnostics, and what a clean report means for the router. */
module Diagnostics {
  import opened Prelude
  import opened Messages
  import opened RouterSpec
  import opened Workflow
  import Composition
  import Conditions
  import Controllers
  import Jumps
  import Resilience
  import Text

  /** The handlers that the application registers. */
  const REGISTERED: set<string> := {
    "validate", "enrich", "assert", "compute", "cel", "filter_array", "array_transform", "transform", "condition",
    "jump_if", "notify", "log", "audit", "datadog_metric", "graphql_enrich", "rest_call", "aws_action"}

  /** The names that the diagnostics accept. */
  const KNOWN: set<string> := REGISTERED + {"workflow_ref"}

  datatype Issue =
    | NameMissing | NoSteps
    | HandlerUnknown(index: nat) | JumpTargetUnknown(index: nat) | FailureTargetUnknown(index: nat)

  function Targets(steps: seq<StepConfig>): set<string> {
    (set s | s in steps && s.id != "" :: s.id) + (set s | s in steps :: s.name)
  }

  /** firstString for one key. */
  function FirstString(step: StepConfig, key: string): string { Text.TrimSpace(step.Str(key)) }

  predicate KnownTarget(targets: set<string>, to: string) { to != "" && to in targets }

  function StepIssues(step: StepConfig, index: nat, targets: set<string>): seq<Issue> {
    (if step.name in KNOWN then [] else [HandlerUnknown(index)])
    + (if step.name == "jump_if" && !KnownTarget(targets, FirstString(step, "to"))
       then [JumpTargetUnknown(index)] else [])
    + (if step.resilience.onFailure.action == "jump" && !KnownTarget(targets, step.resilience.onFailure.to)
       then [FailureTargetUnknown(index)] else [])
  }

  function Flat(found: seq<seq<Issue>>): seq<Issue> {
    if found == [] then [] else Flat(found[..|found| - 1]) + found[|found| - 1]
  }

  function PerStep(steps: seq<StepConfig>): (r: seq<seq<Issue>>)
    ensures |r| == |steps|
  {
    seq(|steps|, k requires 0 <= k < |steps| => StepIssues(steps[k], k, Targets(steps)))
  }

  function Diagnose(file: File): seq<Issue> {
    (if Text.Blank(file.name) then [NameMissing] else [])
    + (if file.steps == [] then [Issue.NoSteps] else [])
    + Flat(PerStep(file.steps))
  }

  /** validateWorkflowDiagnostics, on a workflow that is not nil. */
  method Validate(file: File) returns (issues: seq<Issue>)
    ensures issues == Diagnose(file)
  {
    issues := [];
    if Text.Blank(file.name) {
      issues := issues + [NameMissing];
    }
    if |file.steps| == 0 {
      issues := issues + [Issue.NoSteps];
    }
    var found := ValidateSteps(file.steps);
    issues := issues + found;
  }

  /** The loop over the steps. */
  method ValidateSteps(steps: seq<StepConfig>) returns (issues: seq<Issue>)
    ensures issues == Flat(PerStep(steps))
  {
    var targets := CollectTargets(steps);
    ghost var all := PerStep(steps);
    issues := [];
    for index := 0 to |steps|
      invariant issues == Flat(all[..index])
    {
      var found := ValidateStep(steps[index], index, targets);
      assert found == all[index];
      assert all[..index + 1][..index] == all[..index];
      issues := issues + found;
    }
    assert all[..|all|] == all;
  }

  method CollectTargets(steps: seq<StepConfig>) returns (targets: set<string>)
    ensures targets == Targets(steps)
  {
    targets := {};
    for k := 0 to |steps|
      invariant targets == Targets(steps[..k])
    {
      assert steps[..k + 1] == steps[..k] + [steps[k]];
      if steps[k].id != "" {
        targets := targets + {steps[k].id};
      }
      targets := targets + {steps[k].name};
    }
    assert steps[..|steps|] == steps;
  }

  method ValidateStep(step: StepConfig, index: nat, targets: set<string>) returns (issues: seq<Issue>)
    ensures issues == StepIssues(step, index, targets)
  {
    issues := [];
    if step.name !in KNOWN {
      issues := issues + [HandlerUnknown(index)];
    }
    if step.name == "jump_if" {
      var to := FirstString(step, "to");
      if to == "" || to !in targets {
        issues := issues + [JumpTargetUnknown(index)];
      }
    }
    if step.resilience.onFailure.action == "jump" {
      var to := step.resilience.onFailure.to;
      if to == "" || to !in targets {
        issues := issues + [FailureTargetUnknown(index)];
      }
    }
  }

  // ----- Which steps the router can resolve -----

  /** The router finds a handler for the step and a step for each of its targets. */
  predicate Resolvable(slip: seq<StepDef>, step: StepDef) {
    && step.name in REGISTERED
    && (step.name == "jump_if" ==> FindStep(slip, Conditions.Param(step.params, "to")).Some?)
    && (step.resilience.Action() == Resilience.Jump ==> FindStep(slip, step.resilience.onFailure.to).Some?)
  }

  /** The target of a jump_if is trimmed, a failure target is not just white space, and an action that
      the router reads as a jump is written "jump". */
  predicate WellWritten(step: StepConfig) {
    && (step.name == "jump_if" ==> Text.TrimSpace(step.Str("to")) == step.Str("to"))
    && (step.resilience.onFailure.to == "" || !Text.Blank(step.resilience.onFailure.to))
    && (step.resilience.Action() == Resilience.Jump <==> step.resilience.onFailure.action == "jump")
  }

  lemma {:induction false} NothingFound(found: seq<seq<Issue>>)
    ensures Flat(found) == [] <==> forall k | 0 <= k < |found| :: found[k] == []
  {
    if found != [] {
      NothingFound(found[..|found| - 1]);
    }
  }

  /** The router finds a text exactly when it is not blank and is an id or a handler name. */
  lemma FoundExactly(steps: seq<StepConfig>, to: string)
    requires Jumps.Enabled(steps)
    ensures FindStep(ToSlip(steps), to).Some? <==> !Text.Blank(to) && to in Targets(steps)
  {
    Jumps.EnabledSlip(steps);
    var slip := ToSlip(steps);
    assert Text.TrimSpace("") == "";
    if to in Targets(steps) && !Text.Blank(to) {
      var s :| s in steps && (s.id == to || s.name == to);
      var k :| 0 <= k < |steps| && steps[k] == s;
      assert slip[k] in slip;
    }
    if FindStep(slip, to).Some? {
      assert steps[FindStep(slip, to).value] in steps;
    }
  }

  /** The targets that the router looks up, as it looks them up, are ids or handler names. */
  predicate TargetsFound(step: StepConfig, targets: set<string>) {
    && (step.name == "jump_if" ==> !Text.Blank(step.Str("to")) && step.Str("to") in targets)
    && (step.resilience.Action() == Resilience.Jump ==>
          !Text.Blank(step.resilience.onFailure.to) && step.resilience.onFailure.to in targets)
  }

  lemma ResolvableExactly(steps: seq<StepConfig>, step: StepConfig)
    requires Jumps.Enabled(steps)
    ensures Resolvable(ToSlip(steps), Def(step)) <==> step.name in REGISTERED && TargetsFound(step, Targets(steps))
  {
    if step.name == "jump_if" { FoundExactly(steps, step.Str("to")); }
    FoundExactly(steps, step.resilience.onFailure.to);
  }

  lemma CleanSteps(file: File)
    ensures Diagnose(file) == [] <==>
            !Text.Blank(file.name) && file.steps != []
            && forall s | s in file.steps :: StepIssues(s, 0, Targets(file.steps)) == []
  {
    var steps := file.steps;
    NothingFound(PerStep(steps));
    forall k: nat | k < |steps|
      ensures PerStep(steps)[k] == [] <==> StepIssues(steps[k], 0, Targets(steps)) == []
    {}
    assert forall k | 0 <= k < |steps| :: steps[k] in steps;
  }

  /** A clean report of an enabled and expanded workflow means that the router resolves every step exactly
      when the targets are found as the router looks them up: untrimmed, and for every spelling of jump. */
  lemma CleanReportIsExact(file: File)
    requires Jumps.Enabled(file.steps) && Composition.NoRefs(file.steps) && Diagnose(file) == []
    ensures (forall s | s in file.steps :: Resolvable(ToSlip(file.steps), Def(s)))
            <==> (forall s | s in file.steps :: TargetsFound(s, Targets(file.steps)))
  {
    CleanSteps(file);
    forall s | s in file.steps
      ensures Resolvable(ToSlip(file.steps), Def(s)) <==> TargetsFound(s, Targets(file.steps))
    {
      ResolvableExactly(file.steps, s);
      assert StepIssues(s, 0, Targets(file.steps)) == [];
    }
  }

  /** On a well-written workflow the diagnostics find nothing wrong with the steps exactly when the router
      can resolve each of them. */
  lemma CleanReportIsResolvable(file: File)
    requires Jumps.Enabled(file.steps) && Composition.NoRefs(file.steps)
    requires forall s | s in file.steps :: WellWritten(s)
    ensures Diagnose(file) == [] <==>
            !Text.Blank(file.name) && file.steps != []
            && forall s | s in file.steps :: Resolvable(ToSlip(file.steps), Def(s))
  {
    CleanSteps(file);
    assert Text.TrimSpace("") == "";
    forall s | s in file.steps
      ensures Resolvable(ToSlip(file.steps), Def(s)) <==> StepIssues(s, 0, Targets(file.steps)) == []
    {
      ResolvableExactly(file.steps, s);
    }
  }

  // ----- What the router never meets -----

  predicate ResolvableSlip(slip: seq<StepDef>) { forall s | s in slip :: Resolvable(slip, s) }

  predicate Unresolved(f: Fault) { f.NoHandler? || f.TargetMissing? }

  predicate Harmless(e: StepError) { e.err.Some? && !Unresolved(e.err.value) }

  /** No error from the n-th on is one of the unresolved faults. */
  predicate ResolvedFrom(errors: seq<StepError>, n: nat) {
    n <= |errors| && (|errors| == n || (Harmless(errors[|errors| - 1]) && ResolvedFrom(errors[..|errors| - 1], n)))
  }

  lemma ResolvedSnoc(errors: seq<StepError>, e: StepError, n: nat)
    requires ResolvedFrom(errors, n) && Harmless(e)
    ensures ResolvedFrom(errors + [e], n)
  {
    assert (errors + [e])[..|errors|] == errors;
  }

  lemma {:induction false} ResolvedAt(errors: seq<StepError>, n: nat, k: nat)
    requires ResolvedFrom(errors, n) && n <= k < |errors|
    ensures Harmless(errors[k])
  {
    if k < |errors| - 1 {
      ResolvedAt(errors[..|errors| - 1], n, k);
    }
  }

  predicate Resolved(f: Flow, n: nat) {
    ResolvedFrom(f.run.m.errors, n) && (f.Return? ==> !Unresolved(f.err))
  }

  lemma OnFailureResolves(r: Config, w: World, c: Run, step: StepDef, i: nat, key: string, err: Fault, n: nat)
    requires c.m.Valid() && Resolvable(c.m.slip, step) && ResolvedFrom(c.m.errors, n)
    requires step.resilience.Action() != Resilience.Default
    ensures Resolved(OnFailure(r, w, c, step, i, key, err), n)
  {}

  lemma FailureResolves(r: Config, w: World, c: Run, step: StepDef, i: nat, key: string, err: Fault, n: nat)
    requires c.m.Valid() && Resolvable(c.m.slip, step) && ResolvedFrom(c.m.errors, n) && !Unresolved(err)
    ensures Resolved(AfterFailure(r, w, c, step, i, key, err), n)
  {
    var c1 := c.With(c.m.AddError(step.name, err).MarkFinished(key, SFailed, Some(err)));
    ResolvedSnoc(c.m.errors, StepError(step.name, Some(err)), n);
    if step.resilience.Action() != Resilience.Default {
      OnFailureResolves(r, w, c1, step, i, key, err, n);
    }
  }

  lemma ConcludeResolves(r: Config, w: World, c: Run, proceed: bool, n: nat)
    requires c.m.Valid() && ResolvedFrom(c.m.errors, n)
    ensures Resolved(Conclude(r, w, c, proceed), n)
  {}

  lemma AbortResolves(r: Config, w: World, c: Run, i: nat, err: Fault, n: nat)
    requires c.m.Valid() && ResolvedFrom(c.m.errors, n) && !Unresolved(err)
    ensures Resolved(Abort(r, w, c, i, err), n)
  {}

  lemma RedirectResolves(r: Config, w: World, c: Run, step: StepDef, i: nat, key: string, proceed: bool, n: nat)
    requires c.m.Valid() && ResolvedFrom(c.m.errors, n)
    ensures Resolved(AfterRedirect(r, w, c, step, i, key, proceed), n)
  {
    var d := w.redirect(c.t, c.m, step, i);
    match d.err
    case None => ConcludeResolves(r, w, Redirected(c, d).Emit(Ended(i)), proceed, n);
    case Some(text) =>
      var m := RedirectFailed(c.m, d, step, key, text);
      ResolvedSnoc(c.m.errors, StepError(step.name, Some(Raised(text))), n);
      if r.policy == StopOnError {
        AbortResolves(r, w, c.Tick().With(m), i, StepFailed(step.name, text), n);
      } else {
        ConcludeResolves(r, w, Redirected(c.With(m), d), proceed, n);
      }
  }

  lemma SuccessResolves(r: Config, w: World, c: Run, step: StepDef, i: nat, key: string, proceed: bool, n: nat)
    requires c.m.Valid() && ResolvedFrom(c.m.errors, n)
    ensures Resolved(AfterSuccess(r, w, c, step, i, key, proceed), n)
  {
    var status := if proceed then SSuccess else SStopped;
    var c1 := c.With(c.m.AddHistory(step.name, false, status).MarkFinished(key, status, None));
    if step.name in r.controllers {
      RedirectResolves(r, w, c1, step, i, key, proceed, n);
    }
  }

  lemma {:induction false} AttemptResolves(w: World, c: Run, step: StepDef, i: nat, key: string, attempt: nat)
    ensures var (c', res) := Attempt(w, c, step, i, key, attempt);
            c'.m.errors == c.m.errors && c'.m.slip == c.m.slip && (res.Fails? ==> !Unresolved(res.err))
    decreases step.resilience.Attempts() - attempt
  {
    var (c', res) := TryOnce(w, c, step, i, key, attempt);
    if res.None? {
      AttemptResolves(w, c', step, i, key, attempt + 1);
    }
  }

  lemma ExecuteResolves(r: Config, w: World, c: Run, i: nat, key: string, n: nat)
    requires i < |c.m.slip| && c.m.Valid() && Resolvable(c.m.slip, c.m.slip[i]) && ResolvedFrom(c.m.errors, n)
    ensures Resolved(Execute(r, w, c, i, key), n)
  {
    var step := c.m.slip[i];
    var (c1, res) := Attempt(w, c, step, i, key, 1);
    AttemptResolves(w, c, step, i, key, 1);
    match res
    case Proceeds(proceed) => SuccessResolves(r, w, c1, step, i, key, proceed, n);
    case Fails(err) => FailureResolves(r, w, c1, step, i, key, err, n);
  }

  lemma DispatchResolves(r: Config, w: World, c: Run, i: nat, n: nat)
    requires i < |c.m.slip| && c.m.Valid() && REGISTERED <= r.handlers
    requires Resolvable(c.m.slip, c.m.slip[i]) && ResolvedFrom(c.m.errors, n)
    ensures Resolved(Dispatch(r, w, c, i), n)
  {
    var key := KeyOf(r, w, c, i);
    if !(r.idempotent && AlreadyDone(c.m, key)) {
      var f := Persist(r, w, c.With(c.m.MarkRunning(key, c.m.slip[i], i)));
      if f.Next? {
        ExecuteResolves(r, w, f.run, i, key, n);
      }
    }
  }

  lemma VisitResolves(r: Config, w: World, c: Run, n: nat)
    requires c.m.cursor < |c.m.slip| && REGISTERED <= r.handlers
    requires ResolvableSlip(c.m.slip) && ResolvedFrom(c.m.errors, n)
    ensures Resolved(Visit(r, w, c), n)
  {
    assert c.m.slip[c.m.cursor] in c.m.slip;
    var f := Enter(r, w, c);
    if f.Next? {
      DispatchResolves(r, w, f.run, c.m.cursor, n);
    }
  }

  lemma IterateResolves(r: Config, w: World, c: Run, n: nat)
    requires c.m.Valid() && REGISTERED <= r.handlers && ResolvableSlip(c.m.slip) && ResolvedFrom(c.m.errors, n)
    ensures Resolved(Iterate(r, w, c), n)
  {
    if !w.Cancelled(c.t) && c.m.cursor < |c.m.slip| {
      VisitResolves(r, w, c.Tick(), n);
    }
  }

  lemma {:induction false} LoopResolves(r: Config, w: World, c: Run, n: nat)
    requires c.m.Valid() && REGISTERED <= r.handlers && ResolvableSlip(c.m.slip) && ResolvedFrom(c.m.errors, n)
    ensures var (c', err) := Loop(r, w, c);
            ResolvedFrom(c'.m.errors, n) && (err.Some? ==> !Unresolved(err.value))
    decreases if w.live > c.t then w.live - c.t else 0
  {
    var f := Iterate(r, w, c);
    IterateResolves(r, w, c, n);
    if f.Next? {
      LoopResolves(r, w, f.run, n);
    }
  }

  /** On a slip whose steps are all resolvable, no run of the router, whatever its policy, its handlers,
      its store and its context do, records or returns a missing handler or a missing failure target. */
  lemma ProcessResolves(r: Config, w: World, c: Run)
    requires c.m.Valid() && REGISTERED <= r.handlers && ResolvableSlip(c.m.slip)
    ensures var (c', err) := Process(r, w, c);
            ResolvedFrom(c'.m.errors, |c.m.errors|) && (err.Some? ==> !Unresolved(err.value))
  {
    var f := Persist(r, w, c.With(Labelled(r, c.m)));
    if f.Next? {
      LoopResolves(r, w, f.run, |c.m.errors|);
    }
  }

  /** Nor does jump_if ever miss its target: it fails, if at all, because the target is not ahead. */
  lemma JumpIfResolves(m: Msg, i: nat)
    requires i < |m.slip| && ResolvableSlip(m.slip) && m.slip[i].name == "jump_if"
    ensures Controllers.JumpIfNext(m, m.slip[i], i).err in {None, Some(Controllers.NOT_AFTER)}
  {
    assert m.slip[i] in m.slip;
  }

  /** A clean report carries over to every run of the slip of the workflow. */
  lemma DiagnosticsAreSound(file: File, r: Config, w: World, c: Run)
    requires Jumps.Enabled(file.steps) && Composition.NoRefs(file.steps)
    requires forall s | s in file.steps :: TargetsFound(s, Targets(file.steps))
    requires Diagnose(file) == [] && REGISTERED <= r.handlers
    requires c.m.Valid() && c.m.slip == ToSlip(file.steps)
    ensures var (c', err) := Process(r, w, c);
            && ResolvedFrom(c'.m.errors, |c.m.errors|) && (err.Some? ==> !Unresolved(err.value))
            && forall m: Msg, i | 0 <= i < |m.slip| && m.slip == c.m.slip && m.slip[i].name == "jump_if" ::
                 Controllers.JumpIfNext(m, m.slip[i], i).err in {None, Some(Controllers.NOT_AFTER)}
  {
    CleanReportIsExact(file);
    Jumps.EnabledSlip(file.steps);
    forall s | s in c.m.slip ensures Resolvable(c.m.slip, s) {
      var k :| 0 <= k < |c.m.slip| && c.m.slip[k] == s;
      assert s == Def(file.steps[k]) && file.steps[k] in file.steps;
    }
    ProcessResolves(r, w, c);
    forall m: Msg, i | 0 <= i < |m.slip| && m.slip == c.m.slip && m.slip[i].name == "jump_if"
      ensures Controllers.JumpIfNext(m, m.slip[i], i).err in {None, Some(Controllers.NOT_AFTER)}
    {
      JumpIfResolves(m, i);
    }
  }

  /** For instance, an action written "Jump" passes the diagnostics whatever its target is, and the router
      resolves the step exactly when the target is not blank and known. */
  lemma CapitalsEscapeTheDiagnostics(file: File, target: string)
    requires file == File("w", [StepConfig("a", "log", None, map[],
                                           Resilience.PLAIN.(onFailure := Resilience.OnFailurePolicy("Jump", target)))])
    ensures Diagnose(file) == []
    ensures Resolvable(ToSlip(file.steps), Def(file.steps[0])) <==> target in {"log", "a"}
  {
    var step := file.steps[0];
    JumpInCapitals();
    assert Text.TrimSpace("w") == "w";
    CleanSteps(file);
    assert step in file.steps;
    assert Targets(file.steps) == {"a", "log"};
    ResolvableExactly(file.steps, step);
    NotBlank();
  }

  lemma NotBlank()
    ensures !Text.Blank("log") && !Text.Blank("a")
  {
    assert Text.TrimSpace("log") == "log";
    assert Text.TrimSpace("a") == "a";
  }

  lemma JumpInCapitals()
    ensures Resilience.ParseAction(Text.ToLower(Text.TrimSpace("Jump"))) == Resilience.Jump
  {
    assert Text.TrimSpace("Jump") == "Jump";
    assert Text.ToLower("Jump") == "jump";
  }

  // ----- What the report says -----

  lemma {:induction false} FlatHas(found: seq<seq<Issue>>, e: Issue)
    ensures e in Flat(found) <==> exists k :: 0 <= k < |found| && e in found[k]
  {
    if found != [] {
      var last := |found| - 1;
      FlatHas(found[..last], e);
      if e in found[last] { assert 0 <= last < |found| && e in found[last]; }
      if exists k :: 0 <= k < last && e in found[..last][k] {
        var k :| 0 <= k < last && e in found[..last][k];
        assert e in found[k];
      }
    }
  }

  /** A text that is written as a target, and names no id and no handler of the workflow. */
  predicate Dangling(steps: seq<StepConfig>, to: string) {
    to == "" || forall s | s in steps :: s.id != to && s.name != to
  }

  /** The report names exactly what is missing or unknown, with the step that it is about. */
  lemma IssuesAreExact(file: File, e: Issue)
    ensures e in Diagnose(file) <==>
            match e
            case NameMissing => Text.Blank(file.name)
            case NoSteps => file.steps == []
            case HandlerUnknown(k) => k < |file.steps| && file.steps[k].name !in KNOWN
            case JumpTargetUnknown(k) =>
              k < |file.steps| && file.steps[k].name == "jump_if"
              && Dangling(file.steps, Text.TrimSpace(file.steps[k].Str("to")))
            case FailureTargetUnknown(k) =>
              k < |file.steps| && file.steps[k].resilience.onFailure.action == "jump"
              && Dangling(file.steps, file.steps[k].resilience.onFailure.to)
  {
    FlatHas(PerStep(file.steps), e);
    forall to: string ensures Dangling(file.steps, to) <==> !KnownTarget(Targets(file.steps), to) {
      DanglesExactly(file.steps, to);
    }
    if exists k :: 0 <= k < |file.steps| && e in PerStep(file.steps)[k] {
      var k :| 0 <= k < |file.steps| && e in PerStep(file.steps)[k];
      assert e in StepIssues(file.steps[k], k, Targets(file.steps));
    }
    match e
    case HandlerUnknown(k) => StepHas(file.steps, k, e);
    case JumpTargetUnknown(k) => StepHas(file.steps, k, e);
    case FailureTargetUnknown(k) => StepHas(file.steps, k, e);
    case _ =>
  }

  lemma StepHas(steps: seq<StepConfig>, k: nat, e: Issue)
    ensures k < |steps| && e in StepIssues(steps[k], k, Targets(steps)) ==>
              exists i :: 0 <= i < |steps| && e in PerStep(steps)[i]
  {
    if k < |steps| { assert PerStep(steps)[k] == StepIssues(steps[k], k, Targets(steps)); }
  }

  lemma DanglesExactly(steps: seq<StepConfig>, to: string)
    ensures Dangling(steps, to) <==> !KnownTarget(Targets(steps), to)
  {}
}
