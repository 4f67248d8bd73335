/** How often a step's handler is called, and with which result the retries end. */
module Retries {
  import opened Prelude
  import opened Messages
  import opened RouterSpec
  import Durability
  import Resilience

  /** The answers that the handler gives, one for each call. */
  function Answers(w: World, c: Run, step: StepDef, i: nat, key: string, attempt: nat): seq<HandlerAnswer>
    decreases step.resilience.Attempts() - attempt
  {
    if WaitAbandoned(w, c, step, attempt) then []
    else
      var (c', res) := TryOnce(w, c, step, i, key, attempt);
      [w.handle(c.t + 1, step, c.m.payload, c.m.headers)]
      + if res.Some? then [] else Answers(w, c', step, i, key, attempt + 1)
  }

  /** One attempt under a context that is still live afterwards calls the handler once. */
  lemma LiveTry(w: World, c: Run, step: StepDef, i: nat, key: string, attempt: nat)
    requires var (c', res) := TryOnce(w, c, step, i, key, attempt); !w.Cancelled(c'.t)
    ensures !WaitAbandoned(w, c, step, attempt)
    ensures var (c', res) := TryOnce(w, c, step, i, key, attempt);
            var a := w.handle(c.t + 1, step, c.m.payload, c.m.headers);
            && c'.log == c.log + [Invoked(i, key)] && c'.m.attempt == attempt
            && c'.m.payload == a.payload && c'.m.headers == a.headers
            && res == match a
                      case Handled(proceed, _, _) => Some(Proceeds(proceed))
                      case HandlerFailed(text, _, _) =>
                        if attempt >= step.resilience.Attempts() then Some(Fails(Raised(text))) else None
  {}

  /** What the retries from an attempt on come to. */
  predicate Counted(c: Run, c': Run, res: StepResult, answers: seq<HandlerAnswer>, step: StepDef, i: nat, key: string,
                    attempt: nat) {
    && answers != []
    && c'.log == c.log + Durability.Calls(i, key, |answers|)
    && c'.m.attempt == attempt + |answers| - 1
    && c'.m.payload == answers[|answers| - 1].payload && c'.m.headers == answers[|answers| - 1].headers
    && (forall k | 0 <= k < |answers| - 1 :: answers[k].HandlerFailed?)
    && match answers[|answers| - 1]
       case Handled(proceed, _, _) => res == Proceeds(proceed) && c'.m.attempt <= step.resilience.Attempts()
       case HandlerFailed(text, _, _) => res == Fails(Raised(text)) && c'.m.attempt == step.resilience.Attempts()
  }

  /** A try that settles nothing leaves the rest to the attempts after it. */
  lemma OneMore(c: Run, c1: Run, c': Run, res: StepResult, a: HandlerAnswer, rest: seq<HandlerAnswer>, step: StepDef,
                i: nat, key: string, attempt: nat)
    requires Counted(c1, c', res, rest, step, i, key, attempt + 1)
    requires c1.log == c.log + [Invoked(i, key)] && a.HandlerFailed?
    ensures Counted(c, c', res, [a] + rest, step, i, key, attempt)
  {
    var n := |rest|;
    assert (c.log + [Invoked(i, key)]) + Durability.Calls(i, key, n) == c.log + Durability.Calls(i, key, n + 1);
    assert ([a] + rest)[n] == rest[n - 1];
    forall k | 0 <= k < n ensures ([a] + rest)[k].HandlerFailed? {
      if k > 0 { assert ([a] + rest)[k] == rest[k - 1]; }
    }
  }

  lemma LastOne(c: Run, c': Run, res: StepResult, a: HandlerAnswer, step: StepDef, i: nat, key: string, attempt: nat)
    requires attempt <= step.resilience.Attempts() && c'.log == c.log + [Invoked(i, key)] && c'.m.attempt == attempt
    requires c'.m.payload == a.payload && c'.m.headers == a.headers
    requires match a
             case Handled(proceed, _, _) => res == Proceeds(proceed)
             case HandlerFailed(text, _, _) => attempt == step.resilience.Attempts() && res == Fails(Raised(text))
    ensures Counted(c, c', res, [a], step, i, key, attempt)
  {
    assert Durability.Calls(i, key, 1) == [Invoked(i, key)];
  }

  /** The first attempt, and the ones after it. */
  lemma FirstAttempt(w: World, c: Run, step: StepDef, i: nat, key: string, attempt: nat)
    requires !w.Cancelled(Attempt(w, c, step, i, key, attempt).0.t)
    ensures var (c1, r) := TryOnce(w, c, step, i, key, attempt);
            var a := w.handle(c.t + 1, step, c.m.payload, c.m.headers);
            && !w.Cancelled(c1.t)
            && Attempt(w, c, step, i, key, attempt)
               == (if r.Some? then (c1, r.value) else Attempt(w, c1, step, i, key, attempt + 1))
            && Answers(w, c, step, i, key, attempt)
               == [a] + (if r.Some? then [] else Answers(w, c1, step, i, key, attempt + 1))
  {
    LiveTry(w, c, step, i, key, attempt);
  }

  lemma {:induction false} AttemptsAreCounted(w: World, c: Run, step: StepDef, i: nat, key: string, attempt: nat)
    requires attempt <= step.resilience.Attempts() && !w.Cancelled(Attempt(w, c, step, i, key, attempt).0.t)
    ensures var (c', res) := Attempt(w, c, step, i, key, attempt);
            Counted(c, c', res, Answers(w, c, step, i, key, attempt), step, i, key, attempt)
    decreases step.resilience.Attempts() - attempt
  {
    var (c1, r) := TryOnce(w, c, step, i, key, attempt);
    var a := w.handle(c.t + 1, step, c.m.payload, c.m.headers);
    FirstAttempt(w, c, step, i, key, attempt);
    LiveTry(w, c, step, i, key, attempt);
    if r.Some? {
      LastOne(c, c1, r.value, a, step, i, key, attempt);
    } else {
      AttemptsAreCounted(w, c1, step, i, key, attempt + 1);
      var (c', res) := Attempt(w, c1, step, i, key, attempt + 1);
      OneMore(c, c1, c', res, a, Answers(w, c1, step, i, key, attempt + 1), step, i, key, attempt);
    }
  }

  /** Under a context that stays live, the handler is called at least once, until its first success or
      until the attempts are used up; the message's attempt is the number of calls, and the result, the
      payload and the headers are those of the last answer. */
  lemma RetriesUntilSuccess(w: World, c: Run, step: StepDef, i: nat, key: string)
    requires !w.Cancelled(Attempt(w, c, step, i, key, 1).0.t)
    ensures var (c', res) := Attempt(w, c, step, i, key, 1);
            var answers := Answers(w, c, step, i, key, 1);
            && 1 <= |answers| <= step.resilience.Attempts() && c'.m.attempt == |answers|
            && c'.log == c.log + Durability.Calls(i, key, |answers|)
            && (forall k | 0 <= k < |answers| - 1 :: answers[k].HandlerFailed?)
            && var last := answers[|answers| - 1];
            && c'.m.payload == last.payload && c'.m.headers == last.headers
            && match last
               case Handled(proceed, _, _) => res == Proceeds(proceed)
               case HandlerFailed(text, _, _) => res == Fails(Raised(text)) && |answers| == step.resilience.Attempts()
  {
    AttemptsAreCounted(w, c, step, i, key, 1);
  }

  // ----- A cancelled context -----

  /** Under a context that is cancelled already, the handler is called once at most; unless that call succeeds, the
      result is the cancellation, and not the error of the call. */
  lemma CancelledCall(w: World, c: Run, step: StepDef, i: nat, key: string, attempt: nat)
    requires w.Cancelled(c.t)
    ensures var (c', res) := Attempt(w, c, step, i, key, attempt);
            var a := w.handle(c.t + 1, step, c.m.payload, c.m.headers);
            || (c'.log == c.log && c'.m == c.m.(attempt := attempt) && res == Fails(ContextCancelled)
                && Resilience.Delay(step.resilience.retry, attempt, w.random(c.t)) > 0)
            || (c'.log == c.log + [Invoked(i, key)]
                && c'.m == c.m.(attempt := attempt, payload := a.payload, headers := a.headers)
                && res == if a.Handled? then Proceeds(a.proceed) else Fails(ContextCancelled))
  {}
}
