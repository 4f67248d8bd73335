/** Jumps survive composition: a `to` that names a child id leads, in the loaded workflow, to the same
    child step, however deep the reference is. */
module Jumps {
  import opened Prelude
  import opened Json
  import opened StepIDs
  import opened Workflow
  import opened Composition
  import Messages
  import Paths
  import Resilience
  import Text

  /** The step has an id, and cleaning keeps it. */
  predicate CleanStep(s: StepConfig) { s.id != "" && Canonical(s.id) }

  predicate Enabled(steps: seq<StepConfig>) { forall s | s in steps :: !s.Disabled() }

  /** Step k jumps to the clean id of step a. */
  predicate JumpsTo(steps: seq<StepConfig>, k: nat, a: nat) {
    k < |steps| && a < |steps| && CleanStep(steps[a]) && steps[k].To() == Some(steps[a].id)
  }

  // ----- One workflow inside another -----

  /** b is a with a new id and new parameters. */
  predicate SameStep(a: StepConfig, b: StepConfig) {
    b.name == a.name && b.enabled == a.enabled && b.resilience == a.resilience
  }

  /** The steps of small are those of big from off on; their clean ids, and the jumps to them, are
      prefixed by p. */
  ghost predicate Carries(small: seq<StepConfig>, big: seq<StepConfig>, off: nat, p: string) {
    && off + |small| <= |big|
    && (forall k | 0 <= k < |small| :: SameStep(small[k], big[off + k]))
    && (forall k | 0 <= k < |small| && CleanStep(small[k]) :: MovedID(small[k], big[off + k], p))
    && (forall k: nat, a: nat | JumpsTo(small, k, a) :: big[off + k].To() == Some(p + small[a].id))
  }

  predicate MovedID(a: StepConfig, b: StepConfig, p: string) { CleanStep(b) && b.id == p + a.id }

  lemma NoPrefix(id: string)
    ensures "" + id == id
  {}

  lemma CarriesItself(steps: seq<StepConfig>)
    ensures Carries(steps, steps, 0, "")
  {
    forall k | 0 <= k < |steps| && CleanStep(steps[k]) ensures MovedID(steps[k], steps[0 + k], "") {
      NoPrefix(steps[k].id);
    }
    forall k: nat, a: nat | JumpsTo(steps, k, a) ensures steps[0 + k].To() == Some("" + steps[a].id) {
      NoPrefix(steps[a].id);
    }
  }

  lemma CarriesThrough(small: seq<StepConfig>, mid: seq<StepConfig>, big: seq<StepConfig>, m: nat, n: nat, p: string,
                       q: string)
    requires Carries(small, mid, m, p) && Carries(mid, big, n, q)
    ensures Carries(small, big, n + m, q + p)
  {
    forall k | 0 <= k < |small| ensures SameStep(small[k], big[n + m + k]) {
      assert SameStep(small[k], mid[m + k]) && SameStep(mid[m + k], big[n + (m + k)]);
    }
    forall k | 0 <= k < |small| && CleanStep(small[k]) ensures MovedID(small[k], big[n + m + k], q + p) {
      assert MovedID(small[k], mid[m + k], p) && MovedID(mid[m + k], big[n + (m + k)], q);
      assert q + (p + small[k].id) == q + p + small[k].id;
    }
    forall k: nat, a: nat | JumpsTo(small, k, a) ensures big[n + m + k].To() == Some(q + p + small[a].id) {
      assert MovedID(small[a], mid[m + a], p);
      assert JumpsTo(mid, m + k, m + a);
      assert big[n + (m + k)].To() == Some(q + mid[m + a].id);
      assert q + (p + small[a].id) == q + p + small[a].id;
    }
  }

  lemma CleanIsNotBlank(s: StepConfig)
    requires CleanStep(s)
    ensures !Text.Blank(s.id)
  {
    assert s.id[0] in s.id && s.id[|s.id| - 1] in s.id;
    NoSpaceInside(s.id);
  }

  lemma DigitsAreCanonical(s: string)
    requires s != "" && forall c | c in s :: '0' <= c <= '9'
    ensures Canonical(s)
  {
    forall k | 0 <= k < |s| ensures '0' <= s[k] <= '9' { assert s[k] in s; }
  }

  /** Every prefixed id is clean, also that of a step without an id. */
  lemma PrefixedIDIsClean(prefix: string, id: string, name: string, index: nat)
    requires prefix != "" && Canonical(prefix)
    ensures PrefixedID(prefix, id, name, index) != "" && Canonical(PrefixedID(prefix, id, name, index))
  {
    CleanIsCanonical(id);
    CleanIsCanonical(name);
    DigitsAreCanonical(Pad3(index + 1));
    if CleanID(id) != "" {
      PrefixedIsCanonical(prefix, CleanID(id));
    } else {
      PrefixedIsCanonical(prefix, Pad3(index + 1));
      if CleanID(name) != "" {
        PrefixedIsCanonical(prefix + "." + Pad3(index + 1), CleanID(name));
        assert prefix + "." + Pad3(index + 1) + "." + CleanID(name)
               == (prefix + "." + Pad3(index + 1)) + "." + CleanID(name);
      }
    }
  }

  lemma BlockIsClean(child: seq<StepConfig>, prefix: string, k: nat)
    requires prefix != "" && Canonical(prefix) && k < |child|
    ensures CleanStep(Block(child, prefix)[k])
  {
    PrefixedIDIsClean(prefix, child[k].id, child[k].name, k);
  }

  /** Prefixing carries a child, whatever its ids are. */
  lemma BlockCarries(child: seq<StepConfig>, prefix: string)
    requires prefix != "" && Canonical(prefix)
    ensures Carries(child, Block(child, prefix), 0, prefix + ".")
  {
    var block := Block(child, prefix);
    forall k | 0 <= k < |child| && CleanStep(child[k]) ensures MovedID(child[k], block[0 + k], prefix + ".") {
      BlockIsClean(child, prefix, k);
      CanonicalIsFixed(child[k].id);
    }
    forall k: nat, a: nat | JumpsTo(child, k, a) ensures block[0 + k].To() == Some(prefix + "." + child[a].id) {
      CleanIsNotBlank(child[a]);
      assert child[a] in child;
      assert child[a].id in ChildIDs(child);
    }
  }

  // ----- Where a reference ends up -----

  function Length(res: Loaded): nat { if res.Ok? then |res.value| else 0 }

  /** The place of the steps that replace step i. */
  function OffsetIn(lib: Library, source: string, steps: seq<StepConfig>, stack: set<string>, i: nat): nat
    requires i < |steps|
  {
    if i == 0 then 0
    else Length(Replace(lib, source, steps[0], stack)) + OffsetIn(lib, source, steps[1..], stack, i - 1)
  }

  lemma {:induction false} ReplacedInPlace(lib: Library, source: string, steps: seq<StepConfig>, stack: set<string>,
                                           i: nat)
    requires Expand(lib, source, steps, stack).Ok? && i < |steps|
    ensures Replace(lib, source, steps[i], stack).Ok?
    ensures PlacedAt(Replace(lib, source, steps[i], stack).value, Expand(lib, source, steps, stack).value,
                     OffsetIn(lib, source, steps, stack, i))
    decreases i
  {
    ExpandsStepwise(lib, source, steps, stack);
    if i > 0 {
      ReplacedInPlace(lib, source, steps[1..], stack, i - 1);
      assert steps[1..][i - 1] == steps[i];
      PlacedBehind(Replace(lib, source, steps[i], stack).value, Replace(lib, source, steps[0], stack).value,
                   Expand(lib, source, steps[1..], stack).value, OffsetIn(lib, source, steps[1..], stack, i - 1));
    }
  }

  predicate PlacedAt(part: seq<StepConfig>, whole: seq<StepConfig>, off: nat) {
    off + |part| <= |whole| && forall k | 0 <= k < |part| :: whole[off + k] == part[k]
  }

  lemma PlacedBehind(part: seq<StepConfig>, front: seq<StepConfig>, rest: seq<StepConfig>, off: nat)
    requires PlacedAt(part, rest, off)
    ensures PlacedAt(part, front + rest, |front| + off)
  {
    forall k | 0 <= k < |part| ensures (front + rest)[|front| + off + k] == part[k] {
      assert rest[off + k] == part[k];
    }
  }

  /** A load that succeeds does not depend on the stack it started from. */
  lemma {:induction false} LoadIgnoresStack(lib: Library, path: string, stack: set<string>, less: set<string>)
    requires Load(lib, path, stack).Ok? && less <= stack
    ensures Load(lib, path, less) == Load(lib, path, stack)
    decreases Unvisited(lib, stack), 0
  {
    Visiting(lib, path, stack);
    ExpandIgnoresStack(lib, path, lib.files[path].steps, stack + {path}, less + {path});
  }

  lemma {:induction false} ExpandIgnoresStack(lib: Library, source: string, steps: seq<StepConfig>,
                                              stack: set<string>, less: set<string>)
    requires Expand(lib, source, steps, stack).Ok? && less <= stack
    ensures Expand(lib, source, steps, less) == Expand(lib, source, steps, stack)
    decreases Unvisited(lib, stack), 2, |steps|
  {
    if steps != [] {
      ExpandIgnoresStack(lib, source, steps[1..], stack, less);
      if steps[0].IsRef() {
        LoadIgnoresStack(lib, lib.resolve(source, RefPath(steps[0]).value), stack, less);
      }
    }
  }

  lemma BlockIsEnabled(child: seq<StepConfig>, prefix: string)
    requires Enabled(child)
    ensures Enabled(Block(child, prefix))
  {
    forall b | b in Block(child, prefix) ensures !b.Disabled() {
      var k :| 0 <= k < |child| && b == Block(child, prefix)[k];
      assert child[k] in child;
    }
  }

  // ----- Chains of references -----

  /** The file that step i of a file refers to. */
  predicate Refers(lib: Library, path: string, i: nat) {
    && path in lib.files && i < |lib.files[path].steps|
    && lib.files[path].steps[i].IsRef() && RefPath(lib.files[path].steps[i]).Some?
  }

  function Target(lib: Library, path: string, i: nat): string
    requires Refers(lib, path, i)
  { lib.resolve(path, RefPath(lib.files[path].steps[i]).value) }

  /** The indexes of chain are references, each in the file the one before names. */
  predicate Leads(lib: Library, root: string, chain: seq<nat>)
    decreases |chain|
  {
    chain == [] || (Refers(lib, root, chain[0]) && Leads(lib, Target(lib, root, chain[0]), chain[1..]))
  }

  function Inner(lib: Library, root: string, chain: seq<nat>): string
    requires Leads(lib, root, chain)
    decreases |chain|
  {
    if chain == [] then root else Inner(lib, Target(lib, root, chain[0]), chain[1..])
  }

  /** Where the steps of the innermost file begin in the loaded root. */
  function Offset(lib: Library, root: string, chain: seq<nat>): nat
    requires Leads(lib, root, chain)
    decreases |chain|
  {
    if chain == [] then 0
    else
      OffsetIn(lib, root, lib.files[root].steps, {root}, chain[0])
      + Offset(lib, Target(lib, root, chain[0]), chain[1..])
  }

  lemma PlacedIsCarried(child: seq<StepConfig>, prefix: string, whole: seq<StepConfig>, off: nat)
    requires prefix != "" && Canonical(prefix) && PlacedAt(Block(child, prefix), whole, off)
    ensures Carries(child, whole, off, prefix + ".")
    ensures CleanFrom(whole, off, |child|)
  {
    BlockCarries(child, prefix);
    var block := Block(child, prefix);
    PlacedCarries(child, block, whole, off, prefix + ".");
    forall i | off <= i < off + |child| ensures CleanStep(whole[i]) {
      assert whole[off + (i - off)] == block[i - off];
      BlockIsClean(child, prefix, i - off);
    }
  }

  lemma PlacedCarries(child: seq<StepConfig>, block: seq<StepConfig>, whole: seq<StepConfig>, off: nat, p: string)
    requires Carries(child, block, 0, p) && |block| == |child| && PlacedAt(block, whole, off)
    ensures Carries(child, whole, off, p)
  {
    forall k | 0 <= k < |child| ensures SameStep(child[k], whole[off + k]) {
      assert SameStep(child[k], block[0 + k]) && whole[off + k] == block[k];
    }
    forall k | 0 <= k < |child| && CleanStep(child[k]) ensures MovedID(child[k], whole[off + k], p) {
      assert MovedID(child[k], block[0 + k], p) && whole[off + k] == block[k];
    }
    forall k: nat, a: nat | JumpsTo(child, k, a) ensures whole[off + k].To() == Some(p + child[a].id) {
      assert block[0 + k].To() == Some(p + child[a].id) && whole[off + k] == block[k];
    }
  }

  /** A stretch of steps with clean ids. */
  predicate CleanFrom(steps: seq<StepConfig>, off: nat, n: nat) {
    off + n <= |steps| && forall i | off <= i < off + n :: CleanStep(steps[i])
  }

  /** The workflow that the i-th step refers to is carried into the workflow that refers to it, where
      each of its steps has a clean id. */
  lemma ReferenceLoads(lib: Library, root: string, i: nat)
    requires Load(lib, root, {}).Ok? && Refers(lib, root, i)
    ensures Load(lib, Target(lib, root, i), {}).Ok?
    ensures var step, target := lib.files[root].steps[i], Target(lib, root, i);
            && target in lib.files
            && PlacedAt(Block(Load(lib, target, {}).value, Prefix(lib, step, lib.files[target], target)),
                        Load(lib, root, {}).value, OffsetIn(lib, root, lib.files[root].steps, {root}, i))
  {
    var steps := lib.files[root].steps;
    assert {} + {root} == {root};
    ReplacedInPlace(lib, root, steps, {root}, i);
    ReplacesReference(lib, root, steps[i], {root});
    LoadIgnoresStack(lib, Target(lib, root, i), {root}, {});
  }

  lemma ReferenceCarries(
    lib: Library, root: string, whole: seq<StepConfig>, i: nat, target: string, child: seq<StepConfig>, off: nat)
    returns (p: string)
    requires Load(lib, root, {}) == Ok(whole) && Refers(lib, root, i)
    requires target == Target(lib, root, i) && Load(lib, target, {}) == Ok(child)
    requires off == OffsetIn(lib, root, lib.files[root].steps, {root}, i)
    ensures p != "" && Carries(child, whole, off, p) && CleanFrom(whole, off, |child|)
  {
    ReferenceLoads(lib, root, i);
    var prefix := Prefix(lib, lib.files[root].steps[i], lib.files[target], target);
    p := prefix + ".";
    PlacedIsCarried(child, prefix, whole, off);
  }

  /** What one reference carries, with what its file carries already. */
  lemma LinkCarries(small: seq<StepConfig>, mid: seq<StepConfig>, big: seq<StepConfig>, m: nat, n: nat, p: string,
                    q: string)
    returns (r: string)
    requires Carries(small, mid, m, p) && Carries(mid, big, n, q) && q != ""
    ensures Carries(small, big, n + m, r) && r != ""
  {
    CarriesThrough(small, mid, big, m, n, p, q);
    r := q + p;
  }

  /** Every file on a chain of references of a workflow that loads does load. */
  lemma {:induction false} ChainLoads(lib: Library, root: string, chain: seq<nat>)
    requires Load(lib, root, {}).Ok? && Leads(lib, root, chain)
    ensures Load(lib, Inner(lib, root, chain), {}).Ok?
    decreases |chain|
  {
    if chain != [] {
      ReferenceLoads(lib, root, chain[0]);
      ChainLoads(lib, Target(lib, root, chain[0]), chain[1..]);
    }
  }

  /** The innermost workflow of a chain is carried into the root. */
  lemma {:induction false} ChainCarries(
    lib: Library, root: string, whole: seq<StepConfig>, chain: seq<nat>, child: seq<StepConfig>, off: nat)
    returns (p: string)
    requires Load(lib, root, {}) == Ok(whole) && Leads(lib, root, chain) && off == Offset(lib, root, chain)
    requires Load(lib, Inner(lib, root, chain), {}) == Ok(child)
    ensures Carries(child, whole, off, p) && (chain != [] ==> p != "")
    decreases |chain|, 1
  {
    if chain == [] {
      p := "";
      CarriesItself(whole);
    } else {
      var target := Target(lib, root, chain[0]);
      ReferenceLoads(lib, root, chain[0]);
      var mid, n := Load(lib, target, {}).value, OffsetIn(lib, root, lib.files[root].steps, {root}, chain[0]);
      var q := ReferenceCarries(lib, root, whole, chain[0], target, mid, n);
      p := FurtherCarries(lib, target, mid, chain[1..], child, Offset(lib, target, chain[1..]), whole, n, q);
      assert off == n + Offset(lib, target, chain[1..]);
    }
  }

  /** What a chain carries into a workflow that is carried further itself. */
  lemma {:induction false} FurtherCarries(
    lib: Library, target: string, mid: seq<StepConfig>, chain: seq<nat>, child: seq<StepConfig>, m: nat,
    whole: seq<StepConfig>, n: nat, q: string)
    returns (p: string)
    requires Load(lib, target, {}) == Ok(mid) && Leads(lib, target, chain) && m == Offset(lib, target, chain)
    requires Load(lib, Inner(lib, target, chain), {}) == Ok(child)
    requires Carries(mid, whole, n, q) && q != ""
    ensures Carries(child, whole, n + m, p) && p != ""
    decreases |chain|, 2
  {
    p := ChainCarries(lib, target, mid, chain, child, m);
    p := LinkCarries(child, mid, whole, m, n, p, q);
  }

  /** In the root, every step that came through a reference has a clean id. */
  lemma ChainIsClean(lib: Library, root: string, whole: seq<StepConfig>, chain: seq<nat>, child: seq<StepConfig>,
                     off: nat)
    requires Load(lib, root, {}) == Ok(whole) && Leads(lib, root, chain) && off == Offset(lib, root, chain)
    requires Load(lib, Inner(lib, root, chain), {}) == Ok(child) && chain != []
    ensures CleanFrom(whole, off, |child|)
  {
    var target := Target(lib, root, chain[0]);
    ReferenceLoads(lib, root, chain[0]);
    var mid, n := Load(lib, target, {}).value, OffsetIn(lib, root, lib.files[root].steps, {root}, chain[0]);
    var _ := ReferenceCarries(lib, root, whole, chain[0], target, mid, n);
    var _ := ChainCarries(lib, target, mid, chain[1..], child, Offset(lib, target, chain[1..]));
  }

  // ----- What a jump finds -----

  lemma {:induction false} EnabledSlip(steps: seq<StepConfig>)
    requires Enabled(steps)
    ensures |ToSlip(steps)| == |steps| && forall k | 0 <= k < |steps| :: ToSlip(steps)[k] == Def(steps[k])
  {
    if steps != [] {
      assert steps[0] in steps;
      EnabledSlip(steps[1..]);
    }
  }

  /** No other step has the id of step i. */
  predicate OnlyOne(steps: seq<StepConfig>, i: nat)
    requires i < |steps|
  {
    forall k | 0 <= k < |steps| && k != i :: steps[k].id != steps[i].id
  }

  /** A step is found by its own clean id, when that is no other step's id. */
  lemma FoundByID(steps: seq<StepConfig>, j: nat)
    requires Enabled(steps) && j < |steps| && CleanStep(steps[j]) && OnlyOne(steps, j)
    ensures Messages.FindStep(ToSlip(steps), steps[j].id) == Some(j)
  {
    EnabledSlip(steps);
    CleanIsNotBlank(steps[j]);
    var slip, id := ToSlip(steps), steps[j].id;
    assert slip[j].id == id;
    var r := Messages.FirstIndex(slip, (s: Messages.StepDef) => s.id == id, 0);
    assert r.Some?;
    assert slip[r.value] == Def(steps[r.value]);
  }

  /** The jump of step k finds step j of child; where child is carried, the same step's jump finds
      the same step, moved with its workflow. */
  predicate JumpKept(child: seq<StepConfig>, whole: seq<StepConfig>, off: nat, k: nat, j: nat) {
    && k < |child| && j < |child| && off + |child| <= |whole|
    && child[k].To().Some? && whole[off + k].To().Some?
    && Messages.FindStep(ToSlip(child), child[k].To().value) == Some(j)
    && Messages.FindStep(ToSlip(whole), whole[off + k].To().value) == Some(off + j)
  }

  lemma CarriedIsEnabled(child: seq<StepConfig>, whole: seq<StepConfig>, off: nat, p: string)
    requires Carries(child, whole, off, p) && Enabled(whole)
    ensures Enabled(child)
  {
    forall s | s in child ensures !s.Disabled() {
      var k :| 0 <= k < |child| && child[k] == s;
      assert SameStep(child[k], whole[off + k]) && whole[off + k] in whole;
    }
  }

  lemma CarriedIsOnlyOne(child: seq<StepConfig>, whole: seq<StepConfig>, off: nat, p: string, j: nat)
    requires Carries(child, whole, off, p) && j < |child| && CleanStep(child[j]) && OnlyOne(whole, off + j)
    ensures OnlyOne(child, j)
  {
    forall k | 0 <= k < |child| && k != j ensures child[k].id != child[j].id {
      assert MovedID(child[j], whole[off + j], p);
      if CleanStep(child[k]) { assert MovedID(child[k], whole[off + k], p); }
    }
  }

  /** A jump that finds step j of a carried workflow finds the same step where it is carried. */
  lemma CarriedJump(child: seq<StepConfig>, whole: seq<StepConfig>, off: nat, p: string, k: nat, j: nat)
    requires Carries(child, whole, off, p) && Enabled(whole) && JumpsTo(child, k, j) && OnlyOne(whole, off + j)
    ensures JumpKept(child, whole, off, k, j)
  {
    CarriedIsEnabled(child, whole, off, p);
    CarriedIsOnlyOne(child, whole, off, p, j);
    FoundByID(child, j);
    assert MovedID(child[j], whole[off + j], p);
    FoundByID(whole, off + j);
  }

  /** A jump of an inner workflow to the clean id of one of its own steps finds that step j there; in the
      loaded root, the same step's target finds the same step, moved with its workflow, provided that
      no other step there ends up with its id. So a forward jump stays forward. Nothing is asked of the
      ids of the other steps, which may have none. */
  lemma JumpsSurviveNesting(
    lib: Library, root: string, whole: seq<StepConfig>, chain: seq<nat>, child: seq<StepConfig>,
    off: nat, k: nat, j: nat)
    requires Load(lib, root, {}) == Ok(whole) && Enabled(whole)
    requires Leads(lib, root, chain) && Load(lib, Inner(lib, root, chain), {}) == Ok(child)
    requires JumpsTo(child, k, j)
    requires off == Offset(lib, root, chain) && off + j < |whole| && OnlyOne(whole, off + j)
    ensures JumpKept(child, whole, off, k, j)
  {
    var p := ChainCarries(lib, root, whole, chain, child, off);
    CarriedJump(child, whole, off, p, k, j);
  }

  // ----- What is not carried -----

  predicate NobodysID(steps: seq<StepConfig>, to: string) { forall s | s in steps :: s.id != to }

  predicate NobodysName(steps: seq<StepConfig>, to: string) { forall s | s in steps :: s.name != to }

  predicate FirstNamed(steps: seq<StepConfig>, to: string, i: nat)
    requires i < |steps|
  {
    steps[i].name == to && forall k | 0 <= k < i :: steps[k].name != to
  }

  /** A text leads to a step that has another id exactly when it is no step's id and that step is the
      first of this name; it leads nowhere exactly when it is nobody's id or name. */
  lemma {:induction false} FoundByName(steps: seq<StepConfig>, to: string, i: nat)
    requires Enabled(steps) && !Text.Blank(to) && i < |steps| && steps[i].id != to
    ensures Messages.FindStep(ToSlip(steps), to) == Some(i) <==> NobodysID(steps, to) && FirstNamed(steps, to, i)
    ensures Messages.FindStep(ToSlip(steps), to) == None <==> NobodysID(steps, to) && NobodysName(steps, to)
  {
    EnabledSlip(steps);
    var slip := ToSlip(steps);
    var byID := Messages.FirstIndex(slip, (s: Messages.StepDef) => s.id == to, 0);
    var byName := Messages.FirstIndex(slip, (s: Messages.StepDef) => s.name == to, 0);
    assert forall k | 0 <= k < |steps| :: slip[k].id == steps[k].id && slip[k].name == steps[k].name;
    assert byID.None? <==> NobodysID(steps, to) by {
      if byID.Some? { assert steps[byID.value] in steps; }
    }
    assert byName.None? <==> NobodysName(steps, to) by {
      if byName.Some? { assert steps[byName.value] in steps; }
    }
  }

  /** A carried step that has a clean id does not have the id that it was written with. */
  lemma MovedStepHasNewID(child: seq<StepConfig>, whole: seq<StepConfig>, off: nat, p: string, j: nat)
    requires Carries(child, whole, off, p) && p != "" && CleanFrom(whole, off, |child|) && j < |child|
    ensures whole[off + j].id != child[j].id
  {
    assert CleanStep(whole[off + j]);
    if CleanStep(child[j]) {
      assert MovedID(child[j], whole[off + j], p);
      assert |whole[off + j].id| > |child[j].id|;
    }
  }

  /** The target of an on_failure action is left as it was written. After composition, at any depth, a
      target that named a step by its id leads to that step exactly when it is no id of the whole
      workflow and the step is the first with this handler name; it is lost altogether exactly when it
      is nobody's id or name. */
  lemma FailureTargetIsLost(
    lib: Library, root: string, whole: seq<StepConfig>, chain: seq<nat>, child: seq<StepConfig>,
    off: nat, j: nat, to: string)
    requires Load(lib, root, {}) == Ok(whole) && Enabled(whole)
    requires Leads(lib, root, chain) && chain != [] && Load(lib, Inner(lib, root, chain), {}) == Ok(child)
    requires off == Offset(lib, root, chain) && j < |child| && child[j].id == to && !Text.Blank(to)
    ensures off + |child| <= |whole|
            && (forall k | 0 <= k < |child| :: SameStep(child[k], whole[off + k]))
            && (Messages.FindStep(ToSlip(whole), to) == Some(off + j)
                <==> NobodysID(whole, to) && FirstNamed(whole, to, off + j))
            && (Messages.FindStep(ToSlip(whole), to) == None <==> NobodysID(whole, to) && NobodysName(whole, to))
  {
    var p := ChainCarries(lib, root, whole, chain, child, off);
    ChainIsClean(lib, root, whole, chain, child, off);
    MovedStepHasNewID(child, whole, off, p, j);
    FoundByName(whole, to, off + j);
  }

  predicate LeadsTo(slip: seq<Messages.StepDef>, off: nat, to: string, j: nat)
    requires off + j < |slip|
  {
    || (slip[off + j].id == to && forall k | 0 <= k < off + j :: slip[k].id != to)
    || ((forall s | s in slip :: s.id != to) && forall k | 0 <= k < off :: slip[k].name != to)
  }

  /** A part of a slip, by the handler names. */
  predicate SameNames(part: seq<Messages.StepDef>, slip: seq<Messages.StepDef>, off: nat) {
    off + |part| <= |slip| && forall k | off <= k < off + |part| :: slip[k].name == part[k - off].name
  }

  /** Where a text leads among more steps, when it is the name and not the id of a step. */
  lemma NameInContext(slip: seq<Messages.StepDef>, off: nat, part: seq<Messages.StepDef>, to: string, j: nat)
    requires SameNames(part, slip, off)
    requires !Text.Blank(to) && Messages.FindStep(part, to) == Some(j) && forall s | s in part :: s.id != to
    ensures Messages.FindStep(slip, to) == Some(off + j) <==> LeadsTo(slip, off, to, j)
  {
    assert part[j] in part;
    assert part[j].name == to && forall k | 0 <= k < j :: part[k].name != to;
    assert slip[off + j].name == to;
    var byID := Messages.FirstIndex(slip, (s: Messages.StepDef) => s.id == to, 0);
    if byID.Some? {
      assert slip[byID.value] in slip;
    }
  }

  lemma NotAnID(child: seq<StepConfig>, to: string)
    requires Enabled(child) && to !in ChildIDs(child) && !Text.Blank(to)
    ensures forall s | s in ToSlip(child) :: s.id != to
  {
    EnabledSlip(child);
    forall s | s in ToSlip(child) ensures s.id != to {
      var k :| 0 <= k < |child| && s == Def(child[k]);
      if !Text.Blank(s.id) { assert child[k].id in ChildIDs(child); }
    }
  }

  lemma NamesInContext(before: seq<StepConfig>, child: seq<StepConfig>, after: seq<StepConfig>, prefix: string)
    requires Enabled(before) && Enabled(child) && Enabled(after)
    ensures SameNames(ToSlip(child), ToSlip(before + Block(child, prefix) + after), |before|)
  {
    BlockIsEnabled(child, prefix);
    SlipNames(child, Block(child, prefix), before, after, before + Block(child, prefix) + after);
  }

  lemma SlipNames(child: seq<StepConfig>, block: seq<StepConfig>, before: seq<StepConfig>, after: seq<StepConfig>,
                  whole: seq<StepConfig>)
    requires Enabled(before) && Enabled(child) && Enabled(block) && Enabled(after) && whole == before + block + after
    requires |block| == |child| && forall k | 0 <= k < |child| :: block[k].name == child[k].name
    ensures SameNames(ToSlip(child), ToSlip(whole), |before|)
  {
    EnabledSlip(child);
    EnabledSlip(whole);
    forall k | |before| <= k < |before| + |child| ensures whole[k].name == child[k - |before|].name {
      assert whole[k] == block[k - |before|];
    }
  }

  /** A target that is no child id, such as a handler name, is left as it was written too. In a larger
      workflow it leads to the same child step exactly when that step is the first with this id, or
      no step has this id and no step before the child has this name. */
  lemma NamedJumpsDrift(
    before: seq<StepConfig>, child: seq<StepConfig>, after: seq<StepConfig>, prefix: string,
    slip: seq<Messages.StepDef>, off: nat, to: string, j: nat)
    requires Enabled(before) && Enabled(child) && Enabled(after)
    requires slip == ToSlip(before + Block(child, prefix) + after) && off == |before|
    requires to !in ChildIDs(child) && !Text.Blank(to) && Messages.FindStep(ToSlip(child), to) == Some(j)
    ensures TargetsStay(child, prefix, to) && off + j < |slip|
    ensures Messages.FindStep(slip, to) == Some(off + j) <==> LeadsTo(slip, off, to, j)
  {
    OtherTargetsStay(child, prefix, to);
    NotAnID(child, to);
    NamesInContext(before, child, after, prefix);
    NameInContext(slip, off, ToSlip(child), to, j);
  }

  /** Every step that targets the text still does. */
  predicate TargetsStay(child: seq<StepConfig>, prefix: string, to: string) {
    forall k | 0 <= k < |child| && child[k].To() == Some(to) :: Block(child, prefix)[k].To() == Some(to)
  }

  lemma OtherTargetsStay(child: seq<StepConfig>, prefix: string, to: string)
    requires to !in ChildIDs(child)
    ensures TargetsStay(child, prefix, to)
  {}

  // ----- Which targets are rewritten -----

  /** A path that the rewriting follows: through the fields of objects other than "to", and through the objects of
      arrays. */
  predicate Followed(v: Value, parts: seq<string>)
    decreases |parts|
  {
    parts == [] ||
    match v
    case Obj(o) => parts[0] != "to" && parts[0] in o && Followed(o[parts[0]], parts[1..])
    case Arr(items) =>
      var i := Paths.ParseIndex(parts[0]);
      i.Some? && 0 <= i.value < |items| && items[i.value].Obj? && Followed(items[i.value], parts[1..])
    case _ => false
  }

  /** A target as it is after composition: with the prefix if it names a child id, and otherwise as it was. */
  function Prefixed(v: Value, prefix: string, ids: set<string>): Value {
    if v.Str? && v.s in ids then Str(prefix + "." + v.s) else v
  }

  /** Wherever the rewriting comes to an object, however deep, its target is rewritten. */
  lemma {:induction false} EveryTargetIsRewritten(v: Value, parts: seq<string>, prefix: string, ids: set<string>)
    requires Followed(v, parts)
    ensures var at, at' := Paths.Follow(v, parts), Paths.Follow(RewriteValue(v, prefix, ids), parts);
            && at.Some? && at'.Some?
            && (at.value.Obj? ==> at'.value.Obj? && at'.value.fields.Keys == at.value.fields.Keys)
            && (at.value.Obj? && "to" in at.value.fields ==>
                  at'.value.fields["to"] == Prefixed(at.value.fields["to"], prefix, ids))
            && (!at.value.Obj? && !at.value.Arr? ==> at'.value == at.value)
    decreases |parts|
  {
    if parts != [] {
      match v
      case Obj(o) => EveryTargetIsRewritten(o[parts[0]], parts[1..], prefix, ids);
      case Arr(items) =>
        EveryTargetIsRewritten(items[Paths.ParseIndex(parts[0]).value], parts[1..], prefix, ids);
      case _ =>
    }
  }

  /** The target of a step itself is rewritten exactly when it is the id, and not a blank one, of a step of the same
      workflow. */
  lemma StepTargetIsRewritten(child: seq<StepConfig>, prefix: string, k: nat)
    requires k < |child| && "to" in child[k].params
    ensures var to := child[k].params["to"];
            && "to" in Block(child, prefix)[k].params
            && Block(child, prefix)[k].params["to"]
               == if to.Str? && !Text.Blank(to.s) && exists s | s in child :: s.id == to.s then
                    Str(prefix + "." + to.s)
                  else to
  {
    var to := child[k].params["to"];
    if to.Str? {
      assert to.s in ChildIDs(child) <==> !Text.Blank(to.s) && exists s | s in child :: s.id == to.s;
    }
  }
}
