/** What loading a workflow guarantees: when it succeeds, what it produces, and where jumps lead. */
module Composition {
  import opened Prelude
  import opened Json
  import opened StepIDs
  import opened Workflow
  import Messages
  import Resilience
  import Text

  // ----- Loading succeeds exactly when no walk of references repeats -----

  /** The file that an enabled workflow_ref step of a file names. */
  predicate RefersTo(lib: Library, source: string, step: StepConfig, target: string) {
    step.IsRef() && RefPath(step).Some? && lib.resolve(source, RefPath(step).value) == target
  }

  predicate Edge(lib: Library, source: string, target: string) {
    source in lib.files && exists s | s in lib.files[source].steps :: RefersTo(lib, source, s, target)
  }

  predicate IsWalk(lib: Library, w: seq<string>) {
    && w != []
    && forall k | 0 <= k < |w| - 1 :: Edge(lib, w[k], w[k + 1])
  }

  /** The file exists, has steps, and each of its references names something. */
  predicate Readable(lib: Library, path: string) {
    && path in lib.files && lib.files[path].steps != []
    && forall s | s in lib.files[path].steps && s.IsRef() :: RefPath(s).Some?
  }

  predicate NoRepeat(w: seq<string>) { forall j, k | 0 <= j < k < |w| :: w[j] != w[k] }

  predicate Avoids(w: seq<string>, stack: set<string>) { forall p | p in w :: p !in stack }

  /** A walk from a path that loads never leaves the readable files, never comes back, and never
      meets the stack. */
  lemma {:induction false} LoadedWalks(lib: Library, path: string, stack: set<string>, w: seq<string>)
    requires Load(lib, path, stack).Ok? && IsWalk(lib, w) && w[0] == path
    ensures NoRepeat(w) && Avoids(w, stack) && forall p | p in w :: Readable(lib, p)
    decreases Unvisited(lib, stack), 0
  {
    var steps := lib.files[path].steps;
    Visiting(lib, path, stack);
    forall s | s in steps && s.IsRef() ensures RefPath(s).Some? {
      ExpandedParts(lib, path, steps, stack + {path}, s);
    }
    if |w| > 1 {
      var s :| s in steps && RefersTo(lib, path, s, w[1]);
      ExpandedParts(lib, path, steps, stack + {path}, s);
      TailIsWalk(lib, w);
      LoadedWalks(lib, w[1], stack + {path}, w[1..]);
      assert w == [path] + w[1..];
      HeadDoesNotRepeat(path, w[1..]);
    }
  }

  lemma TailIsWalk(lib: Library, w: seq<string>)
    requires IsWalk(lib, w) && |w| > 1
    ensures IsWalk(lib, w[1..])
  {
    var tail := w[1..];
    forall k | 0 <= k < |tail| - 1 ensures Edge(lib, tail[k], tail[k + 1]) {
      assert tail[k] == w[k + 1] && tail[k + 1] == w[k + 2];
    }
  }

  lemma HeadDoesNotRepeat(head: string, tail: seq<string>)
    requires NoRepeat(tail) && head !in tail
    ensures NoRepeat([head] + tail)
  {
    var w := [head] + tail;
    forall j, k | 0 <= j < k < |w| ensures w[j] != w[k] {
      assert w[k] == tail[k - 1] && tail[k - 1] in tail;
      if j > 0 { assert w[j] == tail[j - 1]; }
    }
  }

  /** When a list of steps expands, each of its steps does. */
  lemma {:induction false} ExpandedParts(lib: Library, source: string, steps: seq<StepConfig>, stack: set<string>,
                                         s: StepConfig)
    requires Expand(lib, source, steps, stack).Ok? && s in steps
    ensures Replace(lib, source, s, stack).Ok?
    decreases |steps|
  {
    if s != steps[0] {
      ExpandedParts(lib, source, steps[1..], stack, s);
    }
  }

  /** A walk that shows why a path does not load: it ends on the stack, on itself, or at a file that
      cannot be read. */
  predicate Witness(lib: Library, w: seq<string>, path: string, stack: set<string>) {
    && IsWalk(lib, w) && w[0] == path
    && var last := w[|w| - 1];
       last in stack || last in w[..|w| - 1] || !Readable(lib, last)
  }

  lemma {:induction false} FailureHasWitness(lib: Library, path: string, stack: set<string>) returns (w: seq<string>)
    requires Load(lib, path, stack).Err?
    ensures Witness(lib, w, path, stack)
    decreases Unvisited(lib, stack), 0
  {
    w := [path];
    if path !in stack && Readable(lib, path) {
      Visiting(lib, path, stack);
      var steps := lib.files[path].steps;
      var s := FailingPart(lib, path, steps, stack + {path});
      var target := lib.resolve(path, RefPath(s).value);
      assert RefersTo(lib, path, s, target);
      var tail := FailureHasWitness(lib, target, stack + {path});
      w := [path] + tail;
      assert w[|w| - 1] == tail[|tail| - 1];
      assert forall k | 1 <= k < |w| :: w[k] == tail[k - 1];
      if tail[|tail| - 1] in tail[..|tail| - 1] {
        assert w[..|w| - 1] == [path] + tail[..|tail| - 1];
      } else if tail[|tail| - 1] == path {
        assert w[..|w| - 1][0] == path;
      }
    }
  }

  lemma {:induction false} FailingPart(lib: Library, source: string, steps: seq<StepConfig>, stack: set<string>)
    returns (s: StepConfig)
    requires Expand(lib, source, steps, stack).Err?
    requires forall x | x in steps && x.IsRef() :: RefPath(x).Some?
    ensures s in steps && s.IsRef() && Load(lib, lib.resolve(source, RefPath(s).value), stack).Err?
    decreases |steps|
  {
    if Replace(lib, source, steps[0], stack).Err? {
      s := steps[0];
    } else {
      s := FailingPart(lib, source, steps[1..], stack);
    }
  }

  /** Loading succeeds exactly when every walk of references from the root visits readable files
      only and never visits a file twice; files shared by several references are fine. */
  lemma LoadsExactlyWithoutCycles(lib: Library, root: string)
    ensures Load(lib, root, {}).Ok? <==>
            forall w | IsWalk(lib, w) && w[0] == root :: NoRepeat(w) && forall p | p in w :: Readable(lib, p)
  {
    if Load(lib, root, {}).Ok? {
      forall w | IsWalk(lib, w) && w[0] == root ensures NoRepeat(w) && forall p | p in w :: Readable(lib, p) {
        LoadedWalks(lib, root, {}, w);
      }
    } else {
      var w := FailureHasWitness(lib, root, {});
      var last := |w| - 1;
      assert w[last] in w;
      if w[last] in w[..last] {
        var j :| 0 <= j < last && w[..last][j] == w[last];
        assert w[j] == w[last];
      }
    }
  }

  // ----- The result is the in-order substitution -----

  /** A step without its id and with its jump targets blanked. */
  datatype Leaf = Leaf(name: string, enabled: Option<bool>, params: Value, resilience: Resilience.Policy)

  /** Parameters up to the texts of their jump targets, wherever the rewriting goes. */
  function Erase(v: Value): Value {
    match v
    case Obj(o) => Obj(map k | k in o :: if k == "to" then (if o[k].Str? then Str("") else o[k]) else Erase(o[k]))
    case Arr(items) => Arr(seq(|items|, i requires 0 <= i < |items| =>
                             if items[i].Obj? then Erase(items[i]) else items[i]))
    case _ => v
  }

  function LeafOf(s: StepConfig): Leaf { Leaf(s.name, s.enabled, Erase(Obj(s.params)), s.resilience) }

  function Leaves(steps: seq<StepConfig>): (r: seq<Leaf>)
    ensures |r| == |steps|
  {
    seq(|steps|, i requires 0 <= i < |steps| => LeafOf(steps[i]))
  }

  lemma LeavesConcat(a: seq<StepConfig>, b: seq<StepConfig>)
    ensures Leaves(a + b) == Leaves(a) + Leaves(b)
  {}

  lemma {:induction false} RewriteKeepsErased(v: Value, prefix: string, ids: set<string>)
    ensures Erase(RewriteValue(v, prefix, ids)) == Erase(v)
  {
    match v
    case Obj(o) =>
      var a, b := Erase(RewriteValue(v, prefix, ids)).fields, Erase(v).fields;
      forall k | k in o ensures a[k] == b[k] {
        if k != "to" { RewriteKeepsErased(o[k], prefix, ids); }
      }
    case Arr(items) =>
      var a, b := Erase(RewriteValue(v, prefix, ids)).items, Erase(v).items;
      forall i | 0 <= i < |items| ensures a[i] == b[i] {
        if items[i].Obj? { RewriteKeepsErased(items[i], prefix, ids); }
      }
    case _ =>
  }

  lemma BlockKeepsLeaves(child: seq<StepConfig>, prefix: string)
    ensures Leaves(Block(child, prefix)) == Leaves(child)
  {
    var ids := ChildIDs(child);
    forall k | 0 <= k < |child| ensures LeafOf(Block(child, prefix)[k]) == LeafOf(child[k]) {
      RewriteKeepsErased(Obj(child[k].params), prefix, ids);
      assert RewriteValue(Obj(child[k].params), prefix, ids) == Obj(RewriteObject(child[k].params, prefix, ids));
    }
  }

  /** The steps of a file with each reference replaced, in place, by the unfolding of what it names,
      down to a depth. */
  function Unfold(lib: Library, source: string, steps: seq<StepConfig>, depth: nat): seq<Leaf>
    decreases depth, 1, |steps|
  {
    if steps == [] then [] else UnfoldOne(lib, source, steps[0], depth) + Unfold(lib, source, steps[1..], depth)
  }

  function UnfoldOne(lib: Library, source: string, s: StepConfig, depth: nat): seq<Leaf>
    decreases depth, 0
  {
    if !s.IsRef() then [LeafOf(s)]
    else if depth == 0 || RefPath(s).None? then []
    else
      var path := lib.resolve(source, RefPath(s).value);
      if path in lib.files then Unfold(lib, path, lib.files[path].steps, depth - 1) else []
  }

  /** What a load produces is the in-order unfolding of the references, at every depth that reaches
      the unvisited files; ids and jump targets apart, each step is as it was written. */
  lemma {:induction false} LoadIsUnfolding(lib: Library, path: string, stack: set<string>, depth: nat)
    requires Load(lib, path, stack).Ok? && depth >= Unvisited(lib, stack + {path})
    ensures Leaves(Load(lib, path, stack).value) == Unfold(lib, path, lib.files[path].steps, depth)
    decreases Unvisited(lib, stack), 0
  {
    Visiting(lib, path, stack);
    ExpandIsUnfolding(lib, path, lib.files[path].steps, stack + {path}, depth);
  }

  lemma ExpandsStepwise(lib: Library, source: string, steps: seq<StepConfig>, stack: set<string>)
    requires steps != []
    ensures Expand(lib, source, steps, stack).Ok? <==>
            Replace(lib, source, steps[0], stack).Ok? && Expand(lib, source, steps[1..], stack).Ok?
    ensures Expand(lib, source, steps, stack).Ok? ==>
              Expand(lib, source, steps, stack).value
              == Replace(lib, source, steps[0], stack).value + Expand(lib, source, steps[1..], stack).value
  {}

  /** What replaces a reference when nothing fails. */
  lemma ReplacesReference(lib: Library, source: string, s: StepConfig, stack: set<string>)
    requires Replace(lib, source, s, stack).Ok? && s.IsRef()
    ensures RefPath(s).Some?
    ensures var path := lib.resolve(source, RefPath(s).value);
            && path in lib.files && path !in stack && Load(lib, path, stack).Ok?
            && Replace(lib, source, s, stack).value
               == Block(Load(lib, path, stack).value, Prefix(lib, s, lib.files[path], path))
  {
    var path := lib.resolve(source, RefPath(s).value);
    assert Load(lib, path, stack).Ok?;
  }

  /** The replacement of one step is the unfolding of that step. */
  lemma {:induction false} ReplaceIsUnfolding(lib: Library, source: string, s: StepConfig, stack: set<string>,
                                              depth: nat)
    requires Replace(lib, source, s, stack).Ok? && depth >= Unvisited(lib, stack)
    ensures Leaves(Replace(lib, source, s, stack).value) == UnfoldOne(lib, source, s, depth)
    decreases Unvisited(lib, stack), 1
  {
    if s.IsRef() {
      ReplacesReference(lib, source, s, stack);
      var path := lib.resolve(source, RefPath(s).value);
      Visiting(lib, path, stack);
      LoadIsUnfolding(lib, path, stack, depth - 1);
      BlockKeepsLeaves(Load(lib, path, stack).value, Prefix(lib, s, lib.files[path], path));
    }
  }

  lemma {:induction false} ExpandIsUnfolding(lib: Library, source: string, steps: seq<StepConfig>, stack: set<string>,
                                             depth: nat)
    requires Expand(lib, source, steps, stack).Ok? && depth >= Unvisited(lib, stack)
    ensures Leaves(Expand(lib, source, steps, stack).value) == Unfold(lib, source, steps, depth)
    decreases Unvisited(lib, stack), 2, |steps|
  {
    if steps != [] {
      ExpandsStepwise(lib, source, steps, stack);
      ReplaceIsUnfolding(lib, source, steps[0], stack, depth);
      ExpandIsUnfolding(lib, source, steps[1..], stack, depth);
      LeavesConcat(Replace(lib, source, steps[0], stack).value, Expand(lib, source, steps[1..], stack).value);
    }
  }

  predicate NoRefs(steps: seq<StepConfig>) { forall s | s in steps :: !s.IsRef() }

  lemma {:induction false} LoadLeavesNoRefs(lib: Library, path: string, stack: set<string>)
    requires Load(lib, path, stack).Ok?
    ensures NoRefs(Load(lib, path, stack).value)
    decreases Unvisited(lib, stack), 0
  {
    Visiting(lib, path, stack);
    ExpandLeavesNoRefs(lib, path, lib.files[path].steps, stack + {path});
  }

  lemma {:induction false} ExpandLeavesNoRefs(lib: Library, source: string, steps: seq<StepConfig>, stack: set<string>)
    requires Expand(lib, source, steps, stack).Ok?
    ensures NoRefs(Expand(lib, source, steps, stack).value)
    decreases Unvisited(lib, stack), 2, |steps|
  {
    if steps != [] {
      ExpandLeavesNoRefs(lib, source, steps[1..], stack);
      if steps[0].IsRef() {
        var path := lib.resolve(source, RefPath(steps[0]).value);
        LoadLeavesNoRefs(lib, path, stack);
        var child := Load(lib, path, stack).value;
        forall b | b in Block(child, Prefix(lib, steps[0], lib.files[path], path)) ensures !b.IsRef() {
          var k :| 0 <= k < |child| && b == Block(child, Prefix(lib, steps[0], lib.files[path], path))[k];
          assert child[k] in child;
        }
      }
    }
  }

  /** The slip of a loaded workflow holds no workflow_ref step. */
  lemma SlipHasNoRefs(lib: Library, root: string)
    requires Load(lib, root, {}).Ok?
    ensures forall d | d in ToSlip(Load(lib, root, {}).value) :: d.name != "workflow_ref"
  {
    LoadLeavesNoRefs(lib, root, {});
    EnabledSteps(Load(lib, root, {}).value);
  }

  lemma {:induction false} EnabledSteps(steps: seq<StepConfig>)
    requires NoRefs(steps)
    ensures forall d | d in ToSlip(steps) :: d.name != "workflow_ref"
  {
    if steps != [] {
      assert steps[0] in steps;
      EnabledSteps(steps[1..]);
    }
  }

  /** The positions of the steps that are not disabled, in order. */
  predicate EnabledAt(steps: seq<StepConfig>, at: seq<nat>) {
    && (forall j, k | 0 <= j < k < |at| :: at[j] < at[k])
    && (forall k | 0 <= k < |at| :: at[k] < |steps|)
    && forall i: nat | i < |steps| :: i in at <==> steps[i].enabled != Some(false)
  }

  /** The slip has the steps that are not disabled, each once, in order and with all its fields. */
  lemma {:induction false} SlipIsEnabledSteps(steps: seq<StepConfig>) returns (at: seq<nat>)
    ensures EnabledAt(steps, at) && |ToSlip(steps)| == |at|
    ensures forall k | 0 <= k < |at| ::
              ToSlip(steps)[k] == Messages.StepDef(steps[at[k]].id, steps[at[k]].name, steps[at[k]].params,
                                                   steps[at[k]].resilience)
  {
    at := [];
    if steps != [] {
      var rest := SlipIsEnabledSteps(steps[1..]);
      at := seq(|rest|, k requires 0 <= k < |rest| => rest[k] + 1);
      PositionsShift(steps, rest, at);
      if steps[0].enabled != Some(false) {
        FirstPosition(steps, at);
        at := [0] + at;
      }
    }
  }

  lemma PositionsShift(steps: seq<StepConfig>, rest: seq<nat>, at: seq<nat>)
    requires steps != [] && EnabledAt(steps[1..], rest)
    requires |at| == |rest| && forall k | 0 <= k < |rest| :: at[k] == rest[k] + 1
    ensures forall k | 0 <= k < |at| :: 0 < at[k] < |steps| && steps[at[k]] == steps[1..][rest[k]]
    ensures forall j, k | 0 <= j < k < |at| :: at[j] < at[k]
    ensures forall i: nat | 0 < i < |steps| :: i in at <==> steps[i].enabled != Some(false)
  {
    forall i: nat | 0 < i < |steps| ensures i in at <==> steps[i].enabled != Some(false) {
      assert steps[i] == steps[1..][i - 1];
      if i - 1 in rest {
        var k :| 0 <= k < |rest| && rest[k] == i - 1;
        assert at[k] == i;
      }
      if i in at {
        var k :| 0 <= k < |at| && at[k] == i;
        assert rest[k] == i - 1;
      }
    }
  }

  lemma FirstPosition(steps: seq<StepConfig>, at: seq<nat>)
    requires steps != [] && steps[0].enabled != Some(false)
    requires forall k | 0 <= k < |at| :: 0 < at[k] < |steps|
    requires forall j, k | 0 <= j < k < |at| :: at[j] < at[k]
    requires forall i: nat | 0 < i < |steps| :: i in at <==> steps[i].enabled != Some(false)
    ensures EnabledAt(steps, [0] + at)
  {
    forall i: nat | i < |steps| ensures i in [0] + at <==> steps[i].enabled != Some(false) {
      if i == 0 { assert ([0] + at)[0] == 0; }
    }
  }

  /** So the slip of a loaded workflow is, ids and jump targets apart, what is not disabled in the unfolding of its
      references. */
  lemma LoadedSlip(lib: Library, root: string, depth: nat) returns (at: seq<nat>)
    requires Load(lib, root, {}).Ok? && depth >= |lib.files|
    ensures var slip, leaves := ToSlip(Load(lib, root, {}).value), Unfold(lib, root, lib.files[root].steps, depth);
            && |slip| == |at| && (forall j, k | 0 <= j < k < |at| :: at[j] < at[k])
            && (forall k | 0 <= k < |at| ::
                  && at[k] < |leaves| && slip[k].name == leaves[at[k]].name
                  && slip[k].resilience == leaves[at[k]].resilience
                  && Erase(Obj(slip[k].params)) == leaves[at[k]].params)
            && forall i: nat | i < |leaves| :: i in at <==> leaves[i].enabled != Some(false)
  {
    var steps := Load(lib, root, {}).value;
    AtMostAll(lib, root);
    LoadIsUnfolding(lib, root, {}, depth);
    at := SlipIsEnabledSteps(steps);
    assert forall i | 0 <= i < |steps| :: Leaves(steps)[i] == LeafOf(steps[i]);
  }

  lemma AtMostAll(lib: Library, root: string)
    ensures Unvisited(lib, {} + {root}) <= |lib.files|
  {
    assert |lib.files.Keys - {root}| <= |lib.files.Keys| by {
      FewerKeys(lib.files.Keys, {root});
    }
    assert {} + {root} == {root} && |lib.files| == |lib.files.Keys|;
  }

  lemma FewerKeys(keys: set<string>, gone: set<string>)
    ensures |keys - gone| <= |keys|
  {
    assert keys == (keys - gone) + (keys * gone);
  }
}
