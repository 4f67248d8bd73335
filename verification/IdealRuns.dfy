/** The run in which nothing fails, and what a stored snapshot says about the rest of it. */
module IdealRuns {
  import opened Prelude
  import opened Json
  import opened Messages
  import opened RouterSpec
  import Resilience
  import StepKeys
  import Text

  /** What a step does when it succeeds: go on or stop, and the new payload. */
  type Effect = (StepDef, Object) -> (bool, Object)

  /** Where a cursor controller leads, and the payload it leaves. */
  type Control = (seq<StepDef>, Object, StepDef, nat) -> Redirect

  /** One message of one workflow: the router, what its handlers and controllers do, the slip, and what
      its step keys are made of. */
  datatype Setting = Setting(
    r: Config, eff: Effect, ctl: Control, slip: seq<StepDef>, workflow: string, id: string)

  function KeyAt(g: Setting, i: nat, correlation: string, order: StepKeys.Order): string
    requires i < |g.slip|
  {
    StepKeys.Key(g.r.template, StepKeys.Facts(g.workflow, g.id, correlation, g.slip[i].name, g.slip[i].id, i), order)
  }

  /** Distinct steps never get the same key. */
  ghost predicate KeysApart(g: Setting) {
    forall i: nat, j: nat, a: string, b: string, o: StepKeys.Order, p: StepKeys.Order | i < j < |g.slip| ::
      KeyAt(g, i, a, o) != KeyAt(g, j, b, p)
  }

  /** The default template keeps keys apart when no value holds an opening brace. */
  lemma DefaultKeysApart(g: Setting)
    requires Text.Blank(g.r.template) && '{' !in g.workflow && '{' !in g.id
    requires forall s | s in g.slip :: '{' !in s.name
    ensures KeysApart(g)
  {
    forall i: nat, j: nat, a: string, b: string, o: StepKeys.Order, p: StepKeys.Order | i < j < |g.slip|
      ensures KeyAt(g, i, a, o) != KeyAt(g, j, b, p)
    {
      assert g.slip[i] in g.slip && g.slip[j] in g.slip;
      var x := StepKeys.Facts(g.workflow, g.id, a, g.slip[i].name, g.slip[i].id, i);
      var y := StepKeys.Facts(g.workflow, g.id, b, g.slip[j].name, g.slip[j].id, j);
      StepKeys.DefaultKeysAreDistinct(x, y, o, p);
      BlankIsDefault(g.r.template, x, o);
      BlankIsDefault(g.r.template, y, p);
    }
  }

  lemma BlankIsDefault(template: string, facts: StepKeys.Facts, order: StepKeys.Order)
    requires Text.Blank(template)
    ensures StepKeys.Key(template, facts, order) == StepKeys.Key("", facts, order)
  {
    assert Text.TrimSpace("") == "";
  }

  ghost predicate ForwardControl(ctl: Control) {
    forall slip, p, step, i :: ctl(slip, p, step, i).err.None?
                               && (ctl(slip, p, step, i).changed ==> ctl(slip, p, step, i).next > i)
  }

  /** StopOnError, no on_failure actions but stop, a durable store, forward controllers without errors,
      and, with idempotency on, step keys that tell the steps apart. */
  ghost predicate Straight(g: Setting) {
    && g.r.policy == StopOnError && g.r.durable && ForwardControl(g.ctl)
    && (forall s | s in g.slip :: s.resilience.Action() in {Resilience.Default, Resilience.Stop})
    && (g.r.idempotent ==> KeysApart(g))
  }

  /** The workflow name that step keys use. */
  function WorkflowIn(r: Config, h: Headers): string {
    if "workflow" in h && h["workflow"] != "" then h["workflow"] else r.workflow
  }

  /** Handlers succeed with a fixed effect, or fail and leave the payload alone; with idempotency on they
      leave the workflow header alone; controllers are fixed. When and how often handlers fail, what
      the store does and when the context ends are arbitrary. */
  ghost predicate Faithful(w: World, g: Setting) {
    && (forall t, step, p, hd ::
          match w.handle(t, step, p, hd)
          case Handled(proceed, p', _) => (proceed, p') == g.eff(step, p)
          case HandlerFailed(_, p', _) => p' == p)
    && (g.r.idempotent ==> forall t, step, p, hd ::
          WorkflowIn(g.r, w.handle(t, step, p, hd).headers) == WorkflowIn(g.r, hd))
    && (forall t, m, step, i :: w.redirect(t, m, step, i) == g.ctl(m.slip, m.payload, step, i))
  }

  // ----- The ideal run -----

  /** The end of a run: payload, cursor, and the steps that succeeded, in order. */
  datatype End = End(payload: Object, cursor: nat, steps: seq<nat>) {
    function After(done: seq<nat>): End { this.(steps := done + steps) }
  }

  datatype Move = Move(proceed: bool, payload: Object, cursor: nat)

  /** One successful step. */
  ghost function Moved(g: Setting, i: nat, p: Object): (m: Move)
    requires i < |g.slip| && ForwardControl(g.ctl)
    ensures i < m.cursor <= |g.slip|
  {
    var (proceed, p1) := g.eff(g.slip[i], p);
    if g.slip[i].name in g.r.controllers then
      var d := g.ctl(g.slip, p1, g.slip[i], i);
      Move(proceed, d.payload, if d.changed then Min(d.next, |g.slip|) else i + 1)
    else Move(proceed, p1, i + 1)
  }

  /** The run in which nothing fails, from step i on. */
  ghost function Ideal(g: Setting, i: nat, p: Object): (e: End)
    requires i <= |g.slip| && ForwardControl(g.ctl)
    ensures forall x | x in e.steps :: x >= i
    decreases |g.slip| - i, 0
  {
    if i == |g.slip| then End(p, i, []) else Rest(g, i, p).After([i])
  }

  /** What follows step i, once it has succeeded. */
  ghost function Rest(g: Setting, i: nat, p: Object): (e: End)
    requires i < |g.slip| && ForwardControl(g.ctl)
    ensures forall x | x in e.steps :: x > i
    decreases |g.slip| - i - 1, 1
  {
    var m := Moved(g, i, p);
    if m.proceed then Ideal(g, m.cursor, m.payload) else End(m.payload, m.cursor, [])
  }

  lemma AfterTwice(e: End, a: seq<nat>, b: seq<nat>)
    ensures e.After(b).After(a) == e.After(a + b)
  {
    assert a + (b + e.steps) == (a + b) + e.steps;
  }

  /** The steps that ended, in order. */
  function EndedSeq(log: seq<Event>): seq<nat> {
    if log == [] then []
    else EndedSeq(log[..|log| - 1]) + match log[|log| - 1] { case Ended(i) => [i] case _ => [] }
  }

  lemma EndedSnoc(log: seq<Event>, e: Event)
    ensures EndedSeq(log + [e]) == EndedSeq(log) + match e { case Ended(i) => [i] case _ => [] }
    ensures Stored(log + [e]) == match e { case Saved(s) => Some(s) case _ => Stored(log) }
  {
    assert (log + [e])[..|log|] == log;
  }

  // ----- What a snapshot says -----

  predicate AllBelow(steps: seq<nat>, limit: int) { forall x | x in steps :: x < limit }

  /** Every step shown as running comes before base. */
  predicate RunningBelow(states: map<string, StepState>, base: int) {
    forall k | k in states && states[k].status == SRunning :: states[k].stepIndex < base
  }

  ghost predicate KeyFor(g: Setting, k: string, i: nat) {
    i < |g.slip| && exists c: string, o: StepKeys.Order :: k == KeyAt(g, i, c, o)
  }

  ghost predicate KeyBelow(g: Setting, k: string, limit: int) { exists i: nat :: i < limit && KeyFor(g, k, i) }

  /** Every success is recorded under the key of a step before the limit. */
  ghost predicate KeysBelow(g: Setting, states: map<string, StepState>, limit: int) {
    forall k | k in states && states[k].status == SSuccess :: KeyBelow(g, k, limit)
  }

  /** The last thing that happened is that a handler stopped the slip. */
  predicate StoppedLast(h: seq<HistoryEntry>) { h != [] && h[|h| - 1].status == SStopped }

  /** A snapshot of this message from which a delivery can go on: what is recorded lies before its cursor. */
  ghost predicate WellFormed(g: Setting, done: seq<nat>, s: Snapshot) {
    && 0 <= s.cursor <= |g.slip| && s.slip == g.slip && s.id == g.id
    && AllBelow(done, s.cursor) && RunningBelow(s.states, s.cursor)
    && (g.r.idempotent ==> KeysBelow(g, s.states, s.cursor))
  }

  /** The steps that ended, without the one that is shown as running. */
  function Before(done: seq<nat>, i: nat): seq<nat> {
    if done != [] && done[|done| - 1] == i then done[..|done| - 1] else done
  }

  /** A delivery that began at cursor `base` with a log of length `from`, and the end it should come to. */
  datatype Course = Course(g: Setting, goal: End, base: nat, from: nat)

  /** What a snapshot saved during a delivery says about the goal: the ideal run ended here, or it goes on
      from here, or it goes on from the step that is shown as running. */
  ghost predicate Fits(k: Course, done: seq<nat>, s: Snapshot)
    requires ForwardControl(k.g.ctl)
  {
    && WellFormed(k.g, done, s) && k.base <= s.cursor
    && if StoppedLast(s.history) then End(s.payload, s.cursor, done) == k.goal
       else if RunningBelow(s.states, k.base) then Ideal(k.g, s.cursor, s.payload).After(done) == k.goal
       else InsideStep(k, done, s)
  }

  ghost predicate InsideStep(k: Course, done: seq<nat>, s: Snapshot)
    requires ForwardControl(k.g.ctl)
  {
    && k.base < s.cursor <= |k.g.slip|
    && var i := s.cursor - 1;
       && AllBelow(Before(done, i), i)
       && (done == Before(done, i) || done == Before(done, i) + [i])
       && Ideal(k.g, i, s.payload).After(Before(done, i)) == k.goal
  }

  /** What is stored fits the goal; nothing is stored only while nothing has succeeded. */
  ghost predicate Consistent(k: Course, log: seq<Event>)
    requires ForwardControl(k.g.ctl)
  {
    match Stored(log)
    case None => EndedSeq(log) == []
    case Some(s) => Fits(k, EndedSeq(log), s)
  }

  /** So it is after each event of the delivery, wherever a crash cuts the log. */
  ghost predicate Always(k: Course, log: seq<Event>)
    requires ForwardControl(k.g.ctl)
    decreases |log|
  {
    && k.from <= |log| && Consistent(k, log)
    && (k.from < |log| ==> Always(k, log[..|log| - 1]))
  }

  lemma AlwaysSnoc(k: Course, log: seq<Event>, e: Event)
    requires ForwardControl(k.g.ctl) && Always(k, log) && Consistent(k, log + [e])
    ensures Always(k, log + [e])
  {
    assert (log + [e])[..|log|] == log;
  }

  lemma {:induction false} AlwaysAt(k: Course, log: seq<Event>, n: nat)
    requires ForwardControl(k.g.ctl) && Always(k, log) && k.from <= n <= |log|
    ensures Consistent(k, log[..n])
    decreases |log|
  {
    if n < |log| {
      AlwaysAt(k, log[..|log| - 1], n);
      assert log[..|log| - 1][..n] == log[..n];
    } else {
      assert log[..n] == log;
    }
  }

  /** An event that neither saves nor ends a step changes nothing. */
  lemma AlwaysQuiet(k: Course, log: seq<Event>, e: Event)
    requires ForwardControl(k.g.ctl) && Always(k, log) && !e.Saved? && !e.Ended?
    ensures Always(k, log + [e])
    ensures EndedSeq(log + [e]) == EndedSeq(log) && Stored(log + [e]) == Stored(log)
  {
    EndedSnoc(log, e);
    AlwaysSnoc(k, log, e);
  }

  lemma ConsistentWith(k: Course, log: seq<Event>, done: seq<nat>, s: Snapshot)
    requires ForwardControl(k.g.ctl) && Stored(log) == Some(s) && EndedSeq(log) == done && Fits(k, done, s)
    ensures Consistent(k, log)
  {}

  lemma AlwaysSaved(k: Course, log: seq<Event>, done: seq<nat>, s: Snapshot)
    requires ForwardControl(k.g.ctl) && Always(k, log) && done == EndedSeq(log) && Fits(k, done, s)
    ensures Always(k, log + [Saved(s)])
    ensures EndedSeq(log + [Saved(s)]) == done && Stored(log + [Saved(s)]) == Some(s)
  {
    EndedSnoc(log, Saved(s));
    ConsistentWith(k, log + [Saved(s)], done, s);
    AlwaysSnoc(k, log, Saved(s));
  }

  /** What a save leaves behind, when the message fits. */
  lemma SaveFits(k: Course, w: World, c: Run, background: bool, done: seq<nat>, s: Snapshot)
    requires ForwardControl(k.g.ctl) && Always(k, c.log) && done == EndedSeq(c.log)
    requires s == c.m.ToSnapshot() && Fits(k, done, s)
    ensures var (c', ok) := SaveState(k.g.r, w, c, background);
            && Always(k, c'.log) && EndedSeq(c'.log) == done
            && (k.g.r.durable && (ok || (background && !w.save(c.t).Loses?)) ==> Stored(c'.log) == Some(s))
  {
    AlwaysSaved(k, c.log, done, s);
    SaveCases(k.g.r, w, c, background);
  }

  lemma SaveCases(r: Config, w: World, c: Run, background: bool)
    ensures var (c', ok) := SaveState(r, w, c, background);
            && (c'.log == c.log || c'.log == c.log + [Saved(c.m.ToSnapshot())])
            && (r.durable && (ok || (background && !w.save(c.t).Loses?)) ==>
                  c'.log == c.log + [Saved(c.m.ToSnapshot())])
  {}
}
