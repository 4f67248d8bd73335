/** Loading a workflow: every enabled workflow_ref step is replaced by the steps of the workflow it
    names, with prefixed ids and rewritten jump targets. */
module Workflow {
  import opened Prelude
  import opened Json
  import opened StepIDs
  import Messages
  import Resilience
  import Text

  datatype StepConfig = StepConfig(
    id: string, name: string, enabled: Option<bool>, params: Object, resilience: Resilience.Policy)
  {
    predicate Disabled() { enabled == Some(false) }

    predicate IsRef() { !Disabled() && name == "workflow_ref" }

    function Str(key: string): string { if key in params && params[key].Str? then params[key].s else "" }

    function To(): Option<string> { if "to" in params && params["to"].Str? then Some(params["to"].s) else None }
  }

  datatype File = File(name: string, steps: seq<StepConfig>) {
    function Name(): string { if Text.Blank(name) then "payment-event-fulfillment" else name }
  }

  /** The workflow files by canonical path, how a reference resolves against the file it is in, and
      the base name of a path without its extension. */
  datatype Library = Library(
    files: map<string, File>, resolve: (string, string) -> string, base: string -> string)

  datatype LoadError = Cycle(path: string) | CannotRead(path: string) | NoSteps(path: string) | NoTarget(id: string)

  type Loaded = Result<seq<StepConfig>, LoadError>

  /** workflowRefPath: the first of params.file, params.path and params.workflow that is not blank. */
  function RefPath(step: StepConfig): Option<string> {
    if !Text.Blank(step.Str("file")) then Some(Text.TrimSpace(step.Str("file")))
    else if !Text.Blank(step.Str("path")) then Some(Text.TrimSpace(step.Str("path")))
    else if !Text.Blank(step.Str("workflow")) then Some(Text.TrimSpace(step.Str("workflow")))
    else None
  }

  function Prefix(lib: Library, step: StepConfig, child: File, path: string): (p: string)
    ensures p != "" && Canonical(p)
  {
    CleanIsCanonical(step.Str("prefix"));
    CleanIsCanonical(step.id);
    CleanIsCanonical(child.Name());
    CleanIsCanonical(lib.base(path));
    if CleanID(step.Str("prefix")) != "" then CleanID(step.Str("prefix"))
    else if CleanID(step.id) != "" then CleanID(step.id)
    else if CleanID(child.Name()) != "" then CleanID(child.Name())
    else if CleanID(lib.base(path)) != "" then CleanID(lib.base(path))
    else "workflow"
  }

  // ----- Jump targets -----

  /** rewriteWorkflowRefTargets on a copy: every "to" that names a child id is prefixed, in nested
      objects and in the objects of arrays. */
  function RewriteObject(o: Object, prefix: string, ids: set<string>): Object {
    map k | k in o :: if k == "to" then RewriteTarget(o[k], prefix, ids) else RewriteValue(o[k], prefix, ids)
  }

  function RewriteTarget(v: Value, prefix: string, ids: set<string>): Value {
    if v.Str? && v.s in ids then Str(prefix + "." + v.s) else v
  }

  function RewriteValue(v: Value, prefix: string, ids: set<string>): Value {
    match v
    case Obj(o) => Obj(map k | k in o ::
                         if k == "to" then RewriteTarget(o[k], prefix, ids) else RewriteValue(o[k], prefix, ids))
    case Arr(items) => Arr(seq(|items|, i requires 0 <= i < |items| =>
                             if items[i].Obj? then RewriteValue(items[i], prefix, ids) else items[i]))
    case _ => v
  }

  function ChildIDs(child: seq<StepConfig>): set<string> {
    set s | s in child && !Text.Blank(s.id) :: s.id
  }

  function Rewritten(s: StepConfig, k: nat, prefix: string, ids: set<string>): StepConfig {
    s.(id := PrefixedID(prefix, s.id, s.name, k), params := RewriteObject(s.params, prefix, ids))
  }

  function Block(child: seq<StepConfig>, prefix: string): (b: seq<StepConfig>)
    ensures |b| == |child|
  {
    seq(|child|, k requires 0 <= k < |child| => Rewritten(child[k], k, prefix, ChildIDs(child)))
  }

  // ----- Loading -----

  function Unvisited(lib: Library, stack: set<string>): nat { |lib.files.Keys - stack| }

  function Then(front: seq<StepConfig>, rest: Loaded): Loaded {
    match rest
    case Ok(steps) => Ok(front + steps)
    case Err(e) => Err(e)
  }

  /** loadWorkflowConfigWithStack */
  function Load(lib: Library, path: string, stack: set<string>): Loaded
    decreases Unvisited(lib, stack), 0
  {
    if path in stack then Err(Cycle(path))
    else if path !in lib.files then Err(CannotRead(path))
    else if lib.files[path].steps == [] then Err(NoSteps(path))
    else
      Visiting(lib, path, stack);
      Expand(lib, path, lib.files[path].steps, stack + {path})
  }

  lemma Visiting(lib: Library, path: string, stack: set<string>)
    requires path in lib.files && path !in stack
    ensures Unvisited(lib, stack + {path}) < Unvisited(lib, stack)
  {
    assert lib.files.Keys - (stack + {path}) < lib.files.Keys - stack;
    assert lib.files.Keys - stack == (lib.files.Keys - (stack + {path})) + {path};
  }

  /** The steps that replace one step. */
  function Replace(lib: Library, source: string, step: StepConfig, stack: set<string>): Loaded
    decreases Unvisited(lib, stack), 1
  {
    if !step.IsRef() then Ok([step])
    else match RefPath(step)
         case None => Err(NoTarget(step.id))
         case Some(ref) =>
           var path := lib.resolve(source, ref);
           match Load(lib, path, stack)
           case Err(e) => Err(e)
           case Ok(child) =>
             var name := if path in lib.files then lib.files[path] else File("", []);
             Ok(Block(child, Prefix(lib, step, name, path)))
  }

  /** expandWorkflowReferences */
  function Expand(lib: Library, source: string, steps: seq<StepConfig>, stack: set<string>): Loaded
    decreases Unvisited(lib, stack), 2, |steps|
  {
    if steps == [] then Ok([])
    else match Replace(lib, source, steps[0], stack)
         case Err(e) => Err(e)
         case Ok(front) => Then(front, Expand(lib, source, steps[1..], stack))
  }

  // ----- The loader, with its stack -----

  class PathStack {
    var on: set<string>

    constructor ()
      ensures on == {}
    {
      on := {};
    }
  }

  method LoadWithStack(lib: Library, path: string, stack: PathStack) returns (res: Loaded)
    modifies stack
    ensures res == Load(lib, path, old(stack.on)) && stack.on == old(stack.on)
    decreases Unvisited(lib, stack.on), 0
  {
    if path in stack.on {
      return Err(Cycle(path));
    }
    ghost var before := stack.on;
    if path !in lib.files {
      return Err(CannotRead(path));
    }
    var workflow := lib.files[path];
    if workflow.steps == [] {
      return Err(NoSteps(path));
    }
    Visiting(lib, path, stack.on);
    stack.on := stack.on + {path};
    res := ExpandReferences(lib, path, workflow.steps, stack);
    stack.on := stack.on - {path};
    assert stack.on == before;
  }

  method ExpandReferences(lib: Library, source: string, steps: seq<StepConfig>, stack: PathStack) returns (res: Loaded)
    modifies stack
    ensures res == Expand(lib, source, steps, old(stack.on)) && stack.on == old(stack.on)
    decreases Unvisited(lib, stack.on), 2
  {
    var expanded: seq<StepConfig> := [];
    var i := 0;
    assert steps[0..] == steps;
    FromEmpty(Expand(lib, source, steps, stack.on));
    while i < |steps|
      invariant 0 <= i <= |steps| && stack.on == old(stack.on)
      invariant Expand(lib, source, steps, stack.on) == Then(expanded, Expand(lib, source, steps[i..], stack.on))
    {
      var step := steps[i];
      assert steps[i..][1..] == steps[i + 1..];
      var block;
      if !step.IsRef() {
        block := [step];
      } else {
        var ref := RefPath(step);
        if ref.None? {
          return Err(NoTarget(step.id));
        }
        var path := lib.resolve(source, ref.value);
        var child := LoadWithStack(lib, path, stack);
        if child.Err? {
          return Err(child.error);
        }
        var file := if path in lib.files then lib.files[path] else File("", []);
        block := PrefixSteps(child.value, Prefix(lib, step, file, path));
      }
      Chain(expanded, block, Expand(lib, source, steps[i + 1..], stack.on));
      expanded := expanded + block;
      i := i + 1;
    }
    assert steps[|steps|..] == [] && expanded + [] == expanded;
    res := Ok(expanded);
  }

  lemma FromEmpty(res: Loaded)
    ensures Then([], res) == res
  {
    if res.Ok? { assert [] + res.value == res.value; }
  }

  lemma Chain(a: seq<StepConfig>, b: seq<StepConfig>, rest: Loaded)
    ensures Then(a, Then(b, rest)) == Then(a + b, rest)
  {
    if rest.Ok? { assert a + (b + rest.value) == (a + b) + rest.value; }
  }

  /** The loops that collect the child ids and prefix the child steps. */
  method PrefixSteps(child: seq<StepConfig>, prefix: string) returns (block: seq<StepConfig>)
    ensures block == Block(child, prefix)
  {
    var ids := CollectIDs(child);
    block := PrefixEach(child, prefix, ids);
  }

  method CollectIDs(child: seq<StepConfig>) returns (ids: set<string>)
    ensures ids == ChildIDs(child)
  {
    ids := {};
    for k := 0 to |child|
      invariant ids == ChildIDs(child[..k])
    {
      NextID(child, k);
      if !Text.Blank(child[k].id) {
        ids := ids + {child[k].id};
      }
    }
    assert child[..|child|] == child;
  }

  lemma NextID(child: seq<StepConfig>, k: nat)
    requires k < |child|
    ensures ChildIDs(child[..k + 1])
            == ChildIDs(child[..k]) + if Text.Blank(child[k].id) then {} else {child[k].id}
  {
    assert child[..k + 1] == child[..k] + [child[k]];
  }

  method PrefixEach(child: seq<StepConfig>, prefix: string, ids: set<string>) returns (block: seq<StepConfig>)
    ensures |block| == |child| && forall k | 0 <= k < |child| :: block[k] == Rewritten(child[k], k, prefix, ids)
  {
    block := [];
    for k := 0 to |child|
      invariant |block| == k && forall j | 0 <= j < k :: block[j] == Rewritten(child[j], j, prefix, ids)
    {
      var step := Rewritten(child[k], k, prefix, ids);
      block := block + [step];
    }
  }

  method LoadWorkflow(lib: Library, path: string) returns (res: Loaded)
    ensures res == Load(lib, path, {})
  {
    var stack := new PathStack();
    res := LoadWithStack(lib, path, stack);
  }

  /** ToSlip: the enabled steps. */
  function ToSlip(steps: seq<StepConfig>): seq<Messages.StepDef> {
    if steps == [] then []
    else if steps[0].Disabled() then ToSlip(steps[1..])
    else [Def(steps[0])] + ToSlip(steps[1..])
  }

  /** Its loop. */
  method BuildSlip(steps: seq<StepConfig>) returns (slip: seq<Messages.StepDef>)
    ensures slip == ToSlip(steps)
  {
    slip := [];
    assert steps[0..] == steps;
    for i := 0 to |steps|
      invariant slip + ToSlip(steps[i..]) == ToSlip(steps)
    {
      assert steps[i..][1..] == steps[i + 1..];
      if !steps[i].Disabled() {
        assert slip + ([Def(steps[i])] + ToSlip(steps[i + 1..])) == (slip + [Def(steps[i])]) + ToSlip(steps[i + 1..]);
        slip := slip + [Def(steps[i])];
      }
    }
    assert steps[|steps|..] == [] && slip + [] == slip;
  }

  function Def(s: StepConfig): Messages.StepDef { Messages.StepDef(s.id, s.name, s.params, s.resilience) }

  // ----- What a reference names -----

  /** The parameter is a text that is not blank. */
  predicate Says(step: StepConfig, key: string, s: string) {
    !Text.Blank(s) && key in step.params && step.params[key] == Str(s)
  }

  ghost predicate Silent(step: StepConfig, key: string) { forall s :: !Says(step, key, s) }

  /** A reference names the trimmed text of `file`, or else of `path`, or else of `workflow`: the first that is not
      blank. */
  lemma ReferenceReads(step: StepConfig)
    ensures forall s | Says(step, "file", s) :: RefPath(step) == Some(Text.TrimSpace(s))
    ensures forall s | Silent(step, "file") && Says(step, "path", s) :: RefPath(step) == Some(Text.TrimSpace(s))
    ensures forall s | Silent(step, "file") && Silent(step, "path") && Says(step, "workflow", s) ::
              RefPath(step) == Some(Text.TrimSpace(s))
    ensures Silent(step, "file") && Silent(step, "path") && Silent(step, "workflow") ==> RefPath(step) == None
  {
    TextOf(step, "file");
    TextOf(step, "path");
    TextOf(step, "workflow");
  }

  lemma TextOf(step: StepConfig, key: string)
    ensures forall s | Says(step, key, s) :: step.Str(key) == s
    ensures Silent(step, key) <==> Text.Blank(step.Str(key))
  {
    if !Text.Blank(step.Str(key)) { assert Says(step, key, step.Str(key)); }
  }

  /** The candidates for a prefix, cleaned: the `prefix` parameter, the id of the reference, the name of the workflow,
      the name of its file. */
  function Candidates(lib: Library, step: StepConfig, child: File, path: string): seq<string> {
    [CleanID(step.Str("prefix")), CleanID(step.id),
     CleanID(if Text.Blank(child.name) then "payment-event-fulfillment" else child.name), CleanID(lib.base(path)),
     "workflow"]
  }

  /** The prefix is the first candidate that is not empty. */
  lemma PrefixReads(lib: Library, step: StepConfig, child: File, path: string, k: nat)
    requires k < 5 && Candidates(lib, step, child, path)[k] != ""
    requires forall j | 0 <= j < k :: Candidates(lib, step, child, path)[j] == ""
    ensures Prefix(lib, step, child, path) == Candidates(lib, step, child, path)[k]
  {
    var names := Candidates(lib, step, child, path);
    assert k > 0 ==> names[0] == "";
    assert k > 1 ==> names[1] == "";
    assert k > 2 ==> names[2] == "";
    assert k > 3 ==> names[3] == "";
  }
}
