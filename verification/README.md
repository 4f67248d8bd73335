# Verification of the routing-slip engine

One message carries an ordered slip of steps and a cursor. A router runs the steps, saves a snapshot
around every transition, and redeliveries resume from the last snapshot under a lock per message. This
project models that engine in Dafny and proves what it keeps over whole runs, together with the parts
around it: workflow composition, the built-in cursor controllers, the diagnostics, the array handlers,
environment and token expansion, and the Studio project file.

Check everything with `dafny verify dfyconfig.toml`.

## How the model is built

- **Values and objects.** What the source updates in place is a class (`Message`, `Router`, `Environment`,
  `AppRuntime`, `MemoryLocks`, `DynamoLocks`, `PathStack`, `Heap`, `WorkingItem`, the handlers). Each method is
  proved equal to a function on values, and the theorems are about those functions.
- **Meanings.** What such a function answers is stated once more without it, from the texts of the configuration and
  the fields of the message: `Turns` for the router, `FilterLaws` for the array handlers, and the lemmas ending in
  `Means`, `Reads` or `IsExact` elsewhere.
- **References.** Where Go shares maps and arrays, the model has a store of cells. A reference stands for a JSON
  value when what it leads to unfolds to that value; a cycle unfolds to none. `array_transform` runs on such a
  store, and what it leaves stands for what `Transforms` computes on values, for every calm configuration.
- **The outside world.** `RouterSpec.World` fixes, tick by tick, what handlers, cursor controllers, the store,
  the context and the random generator answer. The theorems hold for every world, so for every handler, every
  pattern of save failures and every cancellation. A save may be stored, lost, or stored but reported as
  failed. The context is cancelled from some tick on, which makes every run finite; that tick is arbitrary.
- **Runs.** A run appends events to a log: a step was entered, a snapshot saved, a handler invoked, a step
  ended without error. A crash is a log that stops early. `Fleet` interleaves many workers event by event with
  acquisitions, releases, crashes and a clock.
- **Libraries of the source.** CEL evaluation, `fmt.Sprintf`, `strconv.ParseFloat`, path resolution and the
  YAML printer are parameters: arbitrary functions, or arbitrary texts.

| file | what it models |
|---|---|
| Prelude, Text, Json | options and results, Go's string functions, JSON values |
| Messages | the message, its slip, history, states and snapshots |
| Resilience | attempts, failure actions, backoff in wrapping 64-bit arithmetic |
| StepKeys | idempotency keys, replaced in the order of a Go map |
| RouterSpec, Router | the router as a function of the world, and as an object |
| Turns | what one turn of the loop leaves, in every branch, read off its texts |
| Retries, Durability, Fleet | how often handlers are called; what every event keeps; many workers on one message |
| Progress | how far a call gets, and what its snapshots show |
| IdealRuns, Resume | the run in which nothing fails; what crashes and lost saves leave of it |
| Locks, Delivery | the leases; one delivery from payload to release |
| StepIDs, Workflow, Composition, Jumps | clean ids; loading with references; what it produces; where jumps lead |
| Conditions, Controllers, Diagnostics | conditions; `jump_if` and `cel`; the diagnostics against the router |
| Paths, Sharing | path writes on values; the same writes in place, on maps and arrays shared by reference |
| Transforms, TransformLaws | what `filter_array` and `array_transform` compute on values |
| References, Heaps | maps and arrays as cells of a store; reads, writes in place and deep copies on it |
| FilterLaws | which items are kept and which updates are written, in terms of conditions and expressions |
| Aliasing, WorkingItems, ArrayTransform | which writes by reference are calm; the working item; the loops of the two handlers |
| ReferenceLaws | what calm runs keep, and exactly when a write by reference is seen elsewhere or makes a cycle |
| EnvExpand, Interpolate, Studio | `${NAME:-x}`, `{path}` tokens, the project printer and extractor |

## Findings

These are properties that do not hold of the code in general. Each has a lemma that says so.

- A resume does not always continue the run. While a step runs, the stored cursor is already past it. If a crash
  or a lost save leaves such a snapshot, the next delivery passes the step over and goes on with the payload from
  before it. `Resume.ResumeIsExact` says when, for every crash point and every pattern of save failures: the resume
  comes to the end of the interrupted run if and only if the snapshot shows no step of the crashed delivery as
  running, or that step had ended and makes no difference. A handler thus runs at most once, not exactly once.
  Deliveries that only fail or are cancelled never leave such a snapshot while the store loses nothing, so they can be
  resumed any number of times (`Resume.FailedRoundSettles`, `Resume.FailedRunsAgree`).
  `Resume.LostSaveLeavesRunning` and `Resume.UnacknowledgedStartLeavesRunning` show how such a snapshot comes about:
  a lost save after a success, a lost save after a failure (reported as the failure of the step), and a start that
  is stored but reported as failed, after which the handler is never called.
- A worker that outlives its lease removes the lock of the next worker of the same process, because releases
  compare owners and the owner is per process (`Locks.LateReleaseBySharedOwner`).
- Retry delays wrap around, and the wait is then skipped, if and only if doubling the initial interval passes 2^63
  nanoseconds before it reaches the cap (`Resilience.BackoffIsCappedExponential`, with the instance
  `Resilience.DoublingCanWrap`).
- An idempotency key depends on map iteration order when the value of one token holds the name of another
  (`StepKeys.NamesInValuesSplitKeys`), for instance for a message id `{step}` (`StepKeys.OrderCanMatter`).
- Composition rewrites `to` inside params only. A target of `on_failure` keeps the old id; at any depth it still
  finds its step if and only if no step of the whole workflow has that id and the step is the first with that
  handler name (`Jumps.FailureTargetIsLost`). Targets that are handler names can drift (`Jumps.NamedJumpsDrift`).
- A `cel` step whose jump fails leaves its target in the payload, and a later `cel` step that asks for nothing
  jumps there (`Controllers.FailedJumpStaysPending`, `Controllers.CELJumpsExactlyWhenAsked`).
- The diagnostics compare the raw action with `jump` and trim targets; the router compares the action lower-cased and
  trimmed, and looks targets up as they are. A clean report means that every step can be resolved if and only if all
  targets are found in the router's way (`Diagnostics.CleanReportIsExact`, with the instance
  `Diagnostics.CapitalsEscapeTheDiagnostics`: an action `Jump` escapes).
- A snapshot shares nested maps with its message: a later write into a nested map shows in the snapshot, a
  write to a top-level field does not (`Sharing.WriteAfterSnapshot`).
- A path write that fails on a blank segment leaves the objects it has created (`Paths.BlankSegmentLeavesTraces`).
- `array_transform` depends on map iteration order. For a `set` of scalars, all orders agree if and only if no
  written path begins another or no order succeeds (`TransformLaws.ScalarsOrderFree`). For any `set` in which no path
  begins another, they agree if and only if no order succeeds or no write moves what another value reads
  (`TransformLaws.ReadsOrderFree`, with the instance `TransformLaws.ReadOfWrittenPath`).
- `array_transform` writes what `from` finds, and its object literals, by reference, and later writes go through
  them. Unless its configuration is calm, that is, unless it writes objects only to paths that no write passes below
  and reads them only from paths that no write passes (`ReferenceLaws.Plain` is a test on the configuration alone):
  - the source can change. After `set: {b: {from: "box"}}`, a write to `b.items` is a write to `box.items` of the
    payload (`ReferenceLaws.SharedMapIsWritten`). Each write puts one field of one map
    (`ReferenceLaws.WritePutsOneField`), and a reference then stands for another value if and only if it leads to that
    map and the field is new or had another value (`ReferenceLaws.WriteIsSeen`);
  - the iteration order can matter although the written paths are independent: with `b` as above, a `set` that writes
    `b.z` and reads `box.z` gives two results, unless the value was there already (`ReferenceLaws.SharedMapIsWritten`);
  - `copyTransformValue` can recurse for ever. A map that is written to can be copied again if and only if the written
    value does not lead back to it (`ReferenceLaws.CopyReturnsExactly`). It does when an item that holds its parent is
    written back into that parent, so a second nested transform of the same array never ends, and when items that hold
    an object of the payload are written below that object (`ReferenceLaws.HolderIsWrittenInto`);
  - items that get the same literal share it with each other and with the configuration (`Sharing.LiteralIsShared`).
- The token loop of `rest_call` need not end. When text and values have paired braces it ends if and only if tokens
  inside tokens go only finitely deep (`Interpolate.EndsExactly`), so never when a token of the text is part of a
  cycle: a value that shows its own token, or two that show each other's (`Interpolate.CyclesNeverEnd`).
- Asynchronous REST answers identifiers that the processing does not find if and only if the message id is missing
  and its path lies below the correlation id (`Delivery.AgreeUnlessOverwritten`).
- The Studio extractor changes scripts without a line at column 0 or with white space on blank lines
  (`Studio.ScriptRoundTrip` is an equivalence).

Where the source's comments differ from its code, the model follows the code: the comment on `Process`
(app/slip/slip.go:539-540) says that it returns an error only under StopOnError when a step fails, and the code
also returns one for a failed save, a cancelled context, and the on_failure actions that stop.

## Model

| member | source | states |
|---|---|---|
| `Messages.Message.NextStep` | app/slip/slip.go:66-77 | yields the step at the cursor and moves past it, or nothing at the end and the cursor stays |
| `Messages.Message.SetCursor` | app/slip/slip.go:85-95 | the cursor is clamped into the slip |
| `Messages.Message.MarkStepRunning` | app/slip/slip.go:192-211 | the state of the key becomes running with one more attempt, other keys are untouched |
| `Messages.Message.MarkStepFinished` | app/slip/slip.go:213-230 | status, attempts as a maximum, and the error text only when there is an error |
| `Messages.Message.FindStepIndex` | app/slip/slip.go:790-807 | the first step with the id, else the first with the name, else none |
| `Messages.Message.TakeSnapshot` | app/slip/slip.go:324-376 | the snapshot of the message's value |
| `Messages.Message.FromSnapshot` | app/slip/slip.go:380-424 | the message that a snapshot restores to |
| `Messages.SnapshotRoundTrip` | app/slip/slip.go:324-424 | restoring a snapshot gives the message back: same cursor without clamping, errors by text, blank status as loaded |
| `Messages.RestoreThenSnapshot` | app/slip/slip.go:324-424 | conversely, saving a restored snapshot gives the snapshot back, up to the two header copies |
| `Resilience.BackoffDuration` | app/slip/resilience.go:45-78 | the doubling loop, with its early exit, computes the specified delay |
| `Resilience.BackoffIsCappedExponential` | app/slip/resilience.go:45-73 | the delay is min(initial * 2^(attempt-2), cap) before every attempt if and only if doubling reaches the cap before it passes 2^63 ns |
| `Resilience.BackoffIsMonotone` | app/slip/resilience.go:45-73 | later attempts wait at least as long and no delay is negative, if and only if the same condition holds or the backoff is not exponential |
| `Resilience.BackoffKinds` | app/slip/resilience.go:45-73 | no wait before the first attempt or for `none`, the initial interval for `fixed`, all under the cap; 100 ms and 1 s unless configured |
| `Resilience.JitterIsBounded` | app/slip/resilience.go:74-77 | the random bound is positive, and jitter adds less than half of the base for every random number if and only if that sum fits in 64 bits |
| `Resilience.DoublingWraps` | app/slip/resilience.go:63-69 | whenever the condition fails, some attempt gets a negative delay |
| `Resilience.DoublingCanWrap` | app/slip/resilience.go:63-69 | an instance: a concrete policy and its negative delay |
| `StepKeys.StepExecutionKey` | app/slip/slip.go:819-846 | the replacement loop computes the key for the iteration order it meets |
| `StepKeys.TokenMeans` | app/slip/slip.go:832-840 | what each token stands for; `{step_ref}` is the step id, else the handler name |
| `StepKeys.KeyIsOnePass` | app/slip/slip.go:832-845 | without `{` in values the key is the one-pass substitution, for every order |
| `StepKeys.DefaultKeysAreDistinct` | app/slip/slip.go:819-846 | within one message, distinct step indexes get distinct default keys, for any two orders |
| `StepKeys.NamesInValuesSplitKeys` | app/slip/slip.go:841-845 | a value that holds the name of another token, whose value differs, makes two orders give two keys, for every template and every order of the others |
| `StepKeys.OrderCanMatter` | app/slip/slip.go:841-845 | an instance: the message id `{step}` |
| `Router.Environment.Save` | app/slip/state_store.go:108-116 | a live save replaces the snapshot of its id, a cancelled one changes nothing |
| `Router.Router.HandleStep` | app/slip/slip.go:704-734 | the retry loop: handlers are called until success, cancellation or the last attempt |
| `Router.Router.HandleStepFailure` | app/slip/slip.go:736-771 | each on_failure action has the specified effect on message, log and result; `Turns.FailedStepLeadsOn` says which |
| `Router.Router.RunStep` | app/slip/slip.go:576-693 | one step from handler lookup to its last save, in every branch |
| `Router.Router.Process` | app/slip/slip.go:541-702 | the loop over the slip equals the specified run, and the store holds what the log saved last |
| `Turns.WhatATurnDoes` | app/slip/slip.go:559-694 | a turn is one of these, and each says cursor, status, history entry, errors and state of the key: a save failed before the call, no handler, done already, failed, succeeded with or without a redirect |
| `Turns.FailedStepLeadsOn` | app/slip/slip.go:736-771 | after a failed step: for `jump` the next step entered is the first with the target's id, else the first with that name; for `continue`, `skip` and the lenient policies it is the one after; for `stop`, StopOnError, a lost target or an unknown action none is, the cursor is back on the step and the error says why |
| `Turns.NextIsAtTheCursor` | app/slip/slip.go:559-576 | a turn enters the step at the cursor, and the next one entered is the one at the cursor that it leaves |
| `Turns.EntersAhead` | app/slip/slip.go:541-694 | from any turn on, a call enters the steps that are ahead of that turn and ends as the loop does from there |
| `Turns.CallBegins` | app/slip/slip.go:541-557 | a call begins by saving the message, running and labelled, and otherwise unchanged |
| `Turns.CancelledTurn` | app/slip/slip.go:560-564 | a cancelled context sets the status, saves in the background and ends the call |
| `Turns.EndOfSlip` | app/slip/slip.go:683-692 | at the end of the slip the message is completed unless it was stopped or failed before |
| `Turns.SavesExactly` | app/slip/slip.go:809-817 | a save reaches the store unless it is lost or, in the foreground, cancelled; it succeeds exactly when the store also acknowledges it, and always without a store |
| `Turns.LastSavesAreMade` | app/slip/slip.go:560-564 | the save of a cancelled call, and of one that gives up, goes through although the context is cancelled |
| `Retries.RetriesUntilSuccess` | app/slip/slip.go:704-734 | under a live context: one call at least, up to the first success or the last attempt; Attempt equals the calls made; result, payload and headers are those of the last answer |
| `Retries.CancelledCall` | app/slip/slip.go:704-726 | under a cancelled context: one call at most, and unless it succeeds the result is the cancellation |
| `Durability.ProcessKeepsGuarantees` | app/slip/slip.go:541-702 | every event of a call respects the guarantees, from any log that does, for every world |
| `Fleet.OneWorkerAtATime` | app/triggers.go:112-195 | over every interleaving with on-time leases, at most one worker works on the message |
| `Fleet.EndedStepsNeverRunAgain` | app/slip/slip.go:541-702 | with forward jumps, a step that ended without error never runs again and every later snapshot is past it |
| `Fleet.RecordedSuccessIsFinal` | app/slip/slip.go:594-608 | with idempotency, a saved success stays in every later snapshot and its key is never invoked again, backward jumps included |
| `Fleet.TrailIsAppendOnly` | app/slip/slip.go:153-164 | history and errors of a snapshot begin those of every later one |
| `Fleet.FinishedMessagesAreLeftAlone` | app/triggers.go:156-182 | once the stored cursor is at the end and no worker is active, no handler is ever invoked |
| `Progress.ProcessMakesProgress` | app/slip/slip.go:559-694 | with forward jumps a call enters strictly increasing indexes, at most len(slip) - cursor of them |
| `Progress.NilMeansCompletedOrStopped` | app/slip/slip.go:541-702 | no error means completed with the cursor at the end, or stopped; the cursor stays in the slip |
| `Progress.SnapshotsShowOneRunningStep` | app/slip/slip.go:192-230 | a saved snapshot has at most one running step, the one before its cursor; none runs after a nil return |
| `IdealRuns.DefaultKeysApart` | app/slip/slip.go:819-846 | the default template gives the steps of a message distinct keys, which is what the resume results ask of idempotency |
| `Resume.ProcessDelivers` | app/slip/slip.go:541-702 | whatever the saves do, after every event of a call the stored snapshot fits the ideal run, and a call without error has come to its end |
| `Resume.EveryCrashFits` | app/triggers.go:112-182 | wherever a crash cuts a delivery: nothing is stored and nothing has succeeded, or the snapshot stands at the end, or the ideal run goes on from it, or it shows the running step with the payload from before it |
| `Resume.ResumeIsExact` | app/slip/slip.go:575-606 | the next delivery comes to the end of the crashed one if and only if no step of it is shown as running, or that step had ended and makes no difference; otherwise it is the ideal run from the step after it with the old payload |
| `Resume.InterruptedRunsAgree` | app/slip/slip.go:324-702 | any number of crashed, failed or cancelled deliveries that leave settled snapshots, and a final one without error, give the payload, cursor and successful steps of the failure-free run |
| `Resume.FailedRoundSettles` | app/slip/slip.go:541-702 | a whole delivery that returns an error other than a failed save, or is cancelled, leaves no step of its own shown as running, when the store loses nothing |
| `Resume.FailedRunsAgree` | app/slip/slip.go:324-702 | any number of failed or cancelled deliveries and a final one without error give the payload, cursor and successful steps of the failure-free run, from hypotheses on the worlds and the reported errors only |
| `Resume.LostSaveLeavesRunning` | app/slip/slip.go:619-680 | a lost save after a success or a failure leaves the snapshot with the running step, and which error is reported |
| `Resume.UnacknowledgedStartLeavesRunning` | app/slip/slip.go:605-608 | a start that is stored but reported as failed: no handler call, and the snapshot with the running step stays |
| `Locks.MemoryLocks.TryAcquireProcessing` | app/slip/state_store.go:133-155 | granted exactly when the id has no unexpired lock; every refusal changes nothing |
| `Locks.MemoryLocks.Release` | app/slip/state_store.go:87-97 | removes the lock exactly when its owner is the releasing one |
| `Locks.DynamoLocks.TryAcquireProcessing` | app/slip/state_store_dynamodb.go:54-95 | the conditional put with second-truncated expiry takes the same abstract lock, and is refused exactly until the second of its end is over |
| `Locks.DynamoLocks.Release` | app/slip/state_store_dynamodb.go:97-119 | the conditional delete refines the same release |
| `Fleet.FleetRunsOnLocks` | app/triggers.go:112-195 | every run of the workers is a run of harmless steps of the lease protocol |
| `Locks.StepIsExclusive` | app/slip/state_store.go:87-155 | a step keeps mutual exclusion if and only if it is no late release by a shared owner |
| `Locks.MutualExclusion` | app/slip/state_store.go:87-155 | over every run of harmless steps, one unexpired lease per message |
| `Locks.LateReleaseBySharedOwner` | app/triggers.go:193-194 | three workers of one owner, two of them holding one message |
| `Delivery.AppRuntime.ProcessPayload` | app/triggers.go:112-182 | lease, loaded snapshot and saved snapshots are of the message that the payload identifies; a refused delivery changes nothing, an accepted one is the specified delivery and gives its lease back |
| `Delivery.AppRuntime.PrepareMessage` | app/triggers.go:142-165 | the restored or new message with labels, slip and correlation id |
| `Delivery.AppRuntime.PrepareAsyncIdentifiers` | app/triggers.go:541-553 | the identifiers that the payload determines, and the payload that carries them |
| `Delivery.IdentifiedByPayload` | app/triggers.go:112-122 | the message id is the text at the message path, else the correlation id; that is the text at its path, else the generated one, which is written there |
| `Delivery.IdentifiersAreFound` | app/triggers.go:112-122 | the correlation id is found at its path afterwards, and a message id on another path is the one of the payload |
| `Delivery.PreparedReads` | app/triggers.go:141-165 | which fields of the prepared message come from the snapshot, and which from the payload, the request and the configuration |
| `Delivery.PreparedHeaders` | app/triggers.go:141-165 | the headers of the request come over the stored ones, and the labels over both |
| `Delivery.DeliversPrepared` | app/triggers.go:141-182 | a delivery fails with the load, returns a completed message as it is, and otherwise processes it with the trace of the request if there is one |
| `Delivery.DeliversOwn` | app/triggers.go:141-182 | every snapshot that a delivery saves, and the message it returns, has the identified id |
| `Delivery.AsyncIdentifiersAgree` | app/triggers.go:541-553 | the answered identifiers are the ones found later if and only if the message id is not written through the correlation id, or what it leaves there prints as that id |
| `Delivery.AgreeUnlessOverwritten` | app/triggers.go:541-553 | when printed objects differ from ids, if and only if the message id is not missing below the correlation id |
| `StepIDs.CleanStepID` | app/runtime_config.go:398-417 | the rune loop computes the clean id |
| `StepIDs.CleanFixesExactlyCanonical` | app/runtime_config.go:398-417 | the fixed points are exactly the canonical ids, and cleaning is idempotent |
| `StepIDs.PrefixedIsCanonical` | app/runtime_config.go:328-336 | canonical ids are closed under prefixing |
| `StepIDs.GapsBecomeDashes` | app/runtime_config.go:398-417 | the characters of ids stay, and every gap between them becomes one dash |
| `StepIDs.CleanTrims` | app/runtime_config.go:398-417 | the clean id is what is left in lower case without the dashes and dots at its ends |
| `StepIDs.PrefixedReads` | app/runtime_config.go:328-336 | a prefixed id ends in the clean id of the step, else in its number and the clean handler name, else in the number |
| `StepIDs.IDCharacters` | app/runtime_config.go:398-417 | ids keep small letters, digits, underscores and dots |
| `StepIDs.PaddedReads` | app/runtime_config.go:328-336 | the number in a prefixed id has at least three digits, with zeros in front only to make them three |
| `Workflow.LoadWorkflow` | app/runtime_config.go:182-184 | a load starts from an empty stack |
| `Workflow.LoadWithStack` | app/runtime_config.go:186-223 | the recursive loader terminates, returns the specified load and restores its stack |
| `Workflow.ExpandReferences` | app/runtime_config.go:225-267 | the loop replaces each enabled reference in place; the first failure wins |
| `Workflow.BuildSlip` | app/runtime_config.go:685-694 | the loop over the steps builds the slip |
| `Workflow.PrefixSteps` | app/runtime_config.go:252-263 | the two loops over the child: its ids, then its prefixed and rewritten steps |
| `Workflow.ReferenceReads` | app/runtime_config.go:302-312 | a reference names its file, else its path, else its workflow |
| `Workflow.PrefixReads` | app/runtime_config.go:314-326 | the prefix is the first clean candidate that is not empty |
| `Composition.LoadsExactlyWithoutCycles` | app/runtime_config.go:186-267 | loading succeeds if and only if every walk of references visits readable files once each; shared children are allowed |
| `Composition.LoadIsUnfolding` | app/runtime_config.go:225-267 | the result is the in-order substitution of the references, ids and targets apart |
| `Composition.SlipHasNoRefs` | app/runtime_config.go:685-694 | the slip holds no workflow_ref |
| `Composition.SlipIsEnabledSteps` | app/runtime_config.go:685-694 | the slip has exactly the steps that are not disabled, each once, in order, with id, name, params and resilience |
| `Composition.LoadedSlip` | app/runtime_config.go:225-267 | the slip of a loaded workflow is what is not disabled in the unfolding of its references |
| `Jumps.LoadIgnoresStack` | app/runtime_config.go:186-223 | a load that succeeds gives the same result from every smaller stack |
| `Jumps.JumpsSurviveNesting` | app/runtime_config.go:252-263 | at any depth and whatever else the library holds, a target that names a clean child id, unique in its workflow, finds the same child step, moved by the offset |
| `Jumps.FailureTargetIsLost` | app/runtime_config.go:258-263 | at any depth an on_failure target is left as it was; it finds its step if and only if nobody has that id and the step is the first with that name, and nothing if and only if it is nobody's id or name |
| `Jumps.NamedJumpsDrift` | app/runtime_config.go:338-362 | where a handler-name target leads after composition, as an equivalence |
| `Jumps.EveryTargetIsRewritten` | app/runtime_config.go:338-362 | wherever the rewriting comes to an object, however deep, a target that is a child id gets the prefix and any other stays |
| `Jumps.StepTargetIsRewritten` | app/runtime_config.go:252-263 | the target of a step gets the prefix exactly when it is the id, and not a blank one, of a step of the same workflow |
| `Conditions.EvaluateAssert` | app/handlers/control_flow.go:91-139 | the loops compute the verdict: all conditions, any condition, or the single one |
| `Conditions.FailuresAreComplete` | app/handlers/control_flow.go:97-131 | the reported failures are exactly the conditions that are not true |
| `Conditions.NumbersAreLess` | app/handlers/control_flow.go:218-221 | on numbers and texts that are numbers, less_than and less_than_or_equal compare the numbers |
| `Conditions.NumbersAreGreater` | app/handlers/control_flow.go:222-225 | and so do greater_than and greater_than_or_equal |
| `Conditions.NumbersAreEqual` | app/handlers/control_flow.go:214-217 | and equals and not_equals |
| `Conditions.NumbersAreRead` | app/handlers/control_flow.go:277-294 | numbers are the numbers, and the texts that parse as one when trimmed |
| `Conditions.OthersAreEqual` | app/handlers/control_flow.go:256-263 | other values are equal exactly when they are the same or print alike |
| `Conditions.OthersAreNotOrdered` | app/handlers/control_flow.go:265-275 | and cannot be ordered: the four comparisons have a problem |
| `Conditions.LengthsAreCompared` | app/handlers/control_flow.go:226-245 | min_items and max_items compare the number of items, fields or bytes |
| `Conditions.BytesAreCounted` | app/handlers/control_flow.go:296-312 | the length of a text is its number of bytes in UTF-8: the fewest that each character fits into |
| `Conditions.OthersAreNotCounted` | app/handlers/control_flow.go:226-245 | a value without a length is a problem for min_items and max_items |
| `Conditions.LimitsAreNumbers` | app/handlers/control_flow.go:226-245 | and so is a limit that is no number |
| `Conditions.FirstOperatorDecides` | app/handlers/control_flow.go:213-249 | of several operators the first in the order of the source decides |
| `Conditions.MissingFields` | app/handlers/control_flow.go:204-248 | without a field, on a missing field, and without an operator a condition is a problem, and which |
| `Conditions.ExistsMeans` | app/handlers/control_flow.go:188-202 | exists names the field, or says whether it should be there |
| `Controllers.JumpIfHandler.Handle` | app/handlers/control_flow.go:63-70 | notes the outcome of the condition, or fails and changes nothing |
| `Controllers.JumpIfHandler.NextCursor` | app/handlers/control_flow.go:72-89 | the redirect and the payload that records it |
| `Controllers.JumpIfJumpsExactlyWhenMatched` | app/handlers/control_flow.go:63-89 | jumps if and only if the condition holds and the target is ahead; fails if and only if it holds and the target is not |
| `Controllers.CELHandler.Handle` | app/handlers/cel.go:16-73 | every on_false branch, with its payload fields |
| `Controllers.CELHandler.NextCursor` | app/handlers/cel.go:75-93 | obeys the pending target, and clears it after a jump |
| `Controllers.CELJumpsExactlyWhenAsked` | app/handlers/cel.go:16-93 | the step jumps exactly when asked, if and only if it asks or no usable target was left over |
| `Controllers.FailedJumpStaysPending` | app/handlers/cel.go:75-93 | a target that is not ahead fails the step and stays in the payload |
| `Controllers.TakenJumpIsCleared` | app/handlers/cel.go:88-92 | a taken jump is not taken again by a later step |
| `Controllers.JumpIsRecorded` | app/handlers/cel.go:82-93 | a jump records its target, where it came from and where it went; one that fails records nothing |
| `Controllers.CELAnswers` | app/handlers/cel.go:16-73 | a false expression stops the slip exactly for `stop`, lets it go on for `continue`, asks for a jump to a target that is not blank, and fails for everything else, with what each leaves in the payload |
| `Controllers.FalseIsTold` | app/handlers/cel.go:64-69 | a false expression that is to fail fails with the configured message, or else names the expression |
| `Controllers.GateStops` | app/slip/slip.go:678-692 | a cel step that says `stop` ends the call: no step is entered after it, and without an error the message is stopped |
| `Controllers.GateEndsTheCall` | app/slip/slip.go:678-692 | whenever in a call such a gate comes to be evaluated, its step is the last one entered, and without an error the message ends stopped |
| `Controllers.GateContinues` | app/slip/slip.go:678-686 | a cel step that says `continue` does not stop it |
| `Controllers.BuiltInsGoForward` | app/handlers/cel.go:85-87 | both controllers only jump forward, which is what the progress and durability results need |
| `Diagnostics.Validate` | app/mcp.go:335-373 | the two loops compute the report |
| `Diagnostics.IssuesAreExact` | app/mcp.go:335-406 | the report names exactly what is missing or unknown, with its step |
| `Diagnostics.CleanReportIsExact` | app/mcp.go:335-406 | on any enabled expanded workflow, a clean report means that the router resolves every step if and only if all targets are found as the router looks them up |
| `Diagnostics.CleanReportIsResolvable` | app/mcp.go:335-406 | on a well-written expanded workflow, no issue if and only if the router resolves every step |
| `Diagnostics.ProcessResolves` | app/slip/slip.go:577-591 | on a resolvable slip no run records or returns a missing handler or failure target |
| `Diagnostics.DiagnosticsAreSound` | app/mcp.go:335-406 | when targets are found as the router looks them up, a clean report excludes those branches, and the missing jump_if target, from every run |
| `Diagnostics.CapitalsEscapeTheDiagnostics` | app/mcp.go:365-370 | an instance: an action written `Jump` passes with any target, and is resolved if and only if the target is known |
| `Paths.StrictReadBack` | app/handlers/filter_array.go:104-129 | a successful write reads back |
| `Paths.StrictFrame` | app/handlers/filter_array.go:104-129 | every disjoint path reads as before, even after a failed write |
| `Paths.StrictWriteSucceeds` | app/handlers/filter_array.go:104-129 | succeeds if and only if the inner segments are named and cross only objects |
| `Paths.CrossingChangesNothing` | app/handlers/filter_array.go:121-125 | a write that crosses a non-object changes nothing |
| `Paths.BlankSegmentLeavesTraces` | app/handlers/filter_array.go:111-120 | a write that meets a blank segment changes nothing if and only if everything before it was there |
| `Paths.FailedWriteCanChange` | app/handlers/filter_array.go:111-120 | an instance: writing `a. .b` fails and leaves an empty object under `a` |
| `Paths.WritesCommute` | app/handlers/filter_array.go:104-129 | writes to disjoint paths commute |
| `Paths.SuccessIsIndependent` | app/handlers/filter_array.go:104-129 | a write's success does not depend on a disjoint write |
| `Paths.ForceReadBack` | app/triggers.go:210-226 | the overwriting write reads back |
| `Paths.ForceFrame` | app/triggers.go:210-226 | and leaves disjoint paths alone |
| `Paths.ForceAgreesWithStrict` | app/triggers.go:210-226 | and agrees with the strict write where that succeeds |
| `Paths.WalkIsFollowed` | app/slip/slip.go:113-140 | what is found through objects is found by the message too |
| `Paths.JoinedPathsLead` | app/handlers/array_transform.go:218-234 | segments joined by dots lead through themselves, for the readers and both writes; a blank path leads nowhere |
| `Paths.IndexIsFollowed` | app/slip/slip.go:113-140 | the items of an array are found by their decimal index, with or without sign and leading zeros, and nothing past them |
| `Paths.FieldIsFollowed` | app/slip/slip.go:122-128 | the fields of an object are found by their name |
| `Paths.OnlyIndexesAreFollowed` | app/slip/slip.go:113-140 | no other text finds anything in an array |
| `Sharing.Node.SetPayloadPath` | app/handlers/filter_array.go:104-129 | the in-place walk over nested maps refines the strict write, for scalars, maps and arrays, and what it adds is new or written |
| `Sharing.Node.ForcePayloadPath` | app/triggers.go:210-226 | the in-place walk refines the overwriting write |
| `Sharing.WriteAfterSnapshot` | app/slip/slip.go:328-331 | which later writes a snapshot sees, for every path and value |
| `Sharing.WriteAfterRestore` | app/slip/slip.go:380-386 | and which later writes to a restored message the snapshot sees |
| `Sharing.LiteralIsShared` | app/handlers/array_transform.go:111-117 | an object that is written to two items is shared by them and by the configuration: a write below it in one changes all |
| `References.StandsForOne` | app/handlers/array_transform.go:236-253 | what a reference leads to unfolds to one value at most |
| `References.SetSkel` | app/handlers/filter_array.go:104-129 | the strict write through references does to the cells what it does to the value, when no map on its path is shared |
| `Heaps.Heap.SetPath` | app/handlers/filter_array.go:104-129 | the loop over the segments, on maps held by reference |
| `Heaps.Heap.Copy` | app/handlers/array_transform.go:236-253 | a deep copy stands for the same value, is made of new maps and arrays only, and changes nothing; shared parts are copied apart |
| `ArrayTransform.TransformArrayItems` | app/handlers/array_transform.go:46-72 | for a calm configuration the loop over filters, updates and nested arrays ends, changes no map or array that was there, and its items stand for the specified values, or it fails with the specified problem |
| `ArrayTransform.ApplyArrayUpdates` | app/handlers/array_transform.go:85-121 | the updates write into the working item by reference, each seeing the ones before, as specified on values |
| `ArrayTransform.ApplyNestedTransforms` | app/handlers/array_transform.go:123-165 | the item's own arrays are transformed, with the item itself as parent, and written back |
| `ArrayTransform.ArrayTransformHandler.Handle` | app/handlers/array_transform.go:16-44 | for a calm configuration: every error branch, and the payload stands for the specified one while only the maps on the path of the target change in place |
| `ArrayTransform.FilterArrayHandler.Handle` | app/handlers/filter_array.go:15-55 | result, payload and every error branch of the handler |
| `TransformLaws.CollectPicks` | app/handlers/array_transform.go:46-72 | succeeds if and only if no item has a problem, and keeps each kept item once, in order |
| `TransformLaws.TransformIgnoresOrder` | app/handlers/array_transform.go:111-117 | on values: with independent set paths at every depth, any two iteration orders give the same result |
| `TransformLaws.ScalarsOrderFree` | app/handlers/array_transform.go:111-117 | for any set of scalars, all orders agree if and only if no path begins another or no order succeeds |
| `TransformLaws.ReadsOrderFree` | app/handlers/array_transform.go:111-117 | for any set in which no path begins another, `from` included: all orders agree if and only if no order succeeds or no write moves what another value reads |
| `TransformLaws.ReadOfWrittenPath` | app/handlers/array_transform.go:206-216 | a `from` that reads the path of a literal: orders differ unless none succeeds or the item already holds the literal |
| `TransformLaws.SourceSurvives` | app/handlers/array_transform.go:16-44 | on values: a source disjoint from the target and from the counter reads as before, whatever the outcome |
| `ReferenceLaws.PlainIsCalm` | app/handlers/array_transform.go:206-216 | a configuration that passes a test on itself alone is calm for every payload, item and iteration order |
| `ReferenceLaws.SourceReadsAsBefore` | app/handlers/array_transform.go:16-44 | after a calm call the source is found by reference as before, whatever the outcome |
| `ReferenceLaws.ResultsIgnoreOrder` | app/handlers/array_transform.go:111-117 | two calm runs in any two iteration orders both fail, or their items stand for the same values |
| `ReferenceLaws.WritePutsOneField` | app/handlers/filter_array.go:104-129 | a path write changes one field of one map that was there |
| `ReferenceLaws.WriteIsSeen` | app/handlers/array_transform.go:111-117 | such a write changes what a reference stands for if and only if the reference leads to that map and the value is a new one |
| `ReferenceLaws.CopyReturnsExactly` | app/handlers/array_transform.go:236-253 | a map that was written to can be copied again if and only if the written value does not lead back to it |
| `ReferenceLaws.SharedMapIsWritten` | app/handlers/array_transform.go:206-216 | a write below a map that `from` shared is read through the payload, so reads before and after agree if and only if the value was there |
| `ReferenceLaws.HolderIsWrittenInto` | app/handlers/array_transform.go:123-165 | an item that holds a map and is written below it makes a cycle: no copy of either returns |
| `TransformLaws.ResultIsReadBack` | app/handlers/array_transform.go:39-43 | on success the target holds the result and the counter its length |
| `FilterLaws.FilterIsExact` | app/handlers/filter_array.go:36-79 | filter_array has no problem exactly when its condition can be judged on every item, and then keeps exactly the items on which it holds, in order: `expr`, all of a list, or all, any or one condition of an object |
| `FilterLaws.FilterOutcome` | app/handlers/filter_array.go:15-55 | from the parameters to the payload: source, target, counters and errors |
| `FilterLaws.ConditionMeans` | app/handlers/array_transform.go:167-188 | a condition is true exactly when its expression, all conditions of its list, or those of its object hold, and a problem exactly when it cannot be judged |
| `FilterLaws.VerdictReports` | app/handlers/control_flow.go:91-139 | a true verdict reports no failure; a false one reports exactly the conditions that do not evaluate to true |
| `FilterLaws.TransformKeepsSelected` | app/handlers/array_transform.go:46-83 | array_transform keeps exactly the items that `filters`, else `where`, select, in order |
| `FilterLaws.UpdateMeans` | app/handlers/array_transform.go:94-119 | an update writes its set exactly when it has no `when` or its `when` holds on the item as written so far |
| `FilterLaws.ValueMeans` | app/handlers/array_transform.go:206-216 | a `from` stands for what it finds or null, any other value for itself |
| `FilterLaws.WritesInOrder` | app/handlers/array_transform.go:112-117 | the paths of a set object are written one after the other in the order given, up to the first that fails |
| `FilterLaws.NestedMeans` | app/handlers/array_transform.go:132-163 | source, target, parent and errors of a nested transform, and what it leaves alone |
| `FilterLaws.TransformOutcome` | app/handlers/array_transform.go:16-44 | from the parameters to the payload: source, target, counter and errors |
| `EnvExpand.ExpandEnvDefaults` | app/runtime_config.go:419-438 | the byte scan computes the one-pass value of the text, and always advances |
| `EnvExpand.NameMeans` | app/runtime_config.go:440-448 | a plain name stands for its variable as it is |
| `EnvExpand.FallbackMeans` | app/runtime_config.go:440-448 | with `:-`, a name stands for its trimmed variable, or for the fallback when that is blank |
| `EnvExpand.ParseIsProper` | app/runtime_config.go:419-438 | every text is literals and closed references followed by a tail without one |
| `EnvExpand.ParseRendered` | app/runtime_config.go:419-438 | and in only one way |
| `EnvExpand.ExpandRendered` | app/runtime_config.go:419-448 | a rendered document expands to its literals and values, which are not scanned again |
| `EnvExpand.UnclosedIsKept` | app/runtime_config.go:427-431 | a text without a closed reference is kept verbatim |
| `Interpolate.InterpolateString` | app/handlers/rest_call.go:136-154 | the single-token shortcut and the loop, for every text on which it returns |
| `Interpolate.PlainEnds` | app/handlers/rest_call.go:143-152 | it returns on every text when no value shows `{` |
| `Interpolate.OneRoundPerToken` | app/handlers/rest_call.go:143-152 | on paired braces the loop ends after one round per token |
| `Interpolate.LoopIsOnePass` | app/handlers/rest_call.go:143-152 | with the one-pass substitution |
| `Interpolate.EndsExactly` | app/handlers/rest_call.go:143-152 | for texts and values with paired braces, the loop ends if and only if tokens inside tokens go only finitely deep |
| `Interpolate.ExpandsFully` | app/handlers/rest_call.go:143-152 | and it then leaves the text with all tokens replaced, at every depth |
| `Interpolate.CyclesNeverEnd` | app/handlers/rest_call.go:143-152 | a text with a token that is part of a cycle of tokens keeps the loop going for ever |
| `Interpolate.OnlyTokensChange` | app/handlers/rest_call.go:115-134 | structures without tokens are returned as they are |
| `Studio.ExtractYamlBlock` | studio/scripts/routing-slip.studio.business-rules.js:147-159 | the line loop extracts the block of a key |
| `Studio.BlockIsExtracted` | studio/scripts/routing-slip.studio.business-rules.js:147-159 | the text extracted is that of the lines after the first that announces the key, up to the next entry or the end |
| `Studio.KeyLineMeans` | studio/scripts/routing-slip.studio.business-rules.js:147-150 | a block begins exactly after a line that is the key, a colon, white space around it, and nothing more or a comment |
| `Studio.MissingIsEmpty` | studio/scripts/routing-slip.studio.business-rules.js:150-159 | without such a line the text is empty, and of an empty block a line break is left |
| `Studio.ExtractedScript` | studio/scripts/routing-slip.studio.business-rules.js:128-173 | what comes back from a serialized project is the trimmed script, dedented |
| `Studio.ScriptRoundTrip` | studio/scripts/routing-slip.studio.business-rules.js:128-173 | it is the script itself if and only if some line starts at column 0 and blank lines are empty |
| `Studio.DedentFixesFlush` | studio/scripts/routing-slip.studio.business-rules.js:161-168 | dedenting changes nothing if and only if the lines are of that kind |

## Left out

- Aliasing inside runs: the payload of a message is a value in the router and in the handlers other than `array_transform`, so a nested write never reaches a saved snapshot there; `Sharing` shows what sharing changes.
- ArrayTransform.TransformArrayItems: requires a calm configuration; what other configurations do is said write by write in `ReferenceLaws`, not for whole runs.
- ArrayTransform.ArrayTransformHandler.Handle: requires also that the maps on the path of the target are not shared, as in a decoded payload.
- ArrayTransform.FilterArrayHandler.Handle: on values; it writes nothing into the items that it keeps.
- TransformLaws.ReadsOrderFree: sets in which one written path begins another are covered for scalars only.
- Interpolate.InterpolateString: requires that the loop ends on the text, because the loop of the source does not return otherwise.
- StepKeys.KeyIsOnePass: templates with a `{` that begins no word in braces are not covered; unknown words are.
- StepKeys.NamesInValuesSplitKeys: asks that the other values that the template uses hold no `{`.
- Interpolate.EndsExactly: asks for paired braces in the text and in the values.
- Resume.InterruptedRunsAgree: its rounds may be cut by a crash, so it asks that they leave settled snapshots, as `Resume.FailedRoundSettles` shows for rounds that are not cut; it requires StopOnError, no on_failure actions but stop, handlers whose failed attempts leave the payload alone, forward controllers without errors, and, with idempotency on, distinct step keys and handlers that leave the workflow header alone; headers are not compared.
- Composition.LoadIsUnfolding: compares steps without ids and jump targets; `Jumps` says what becomes of those.
- Messages.Message.MarkStepRunning: start time, trace id and span id of a step state are not modelled.
- Messages.Message.MarkStepFinished: completion time, trace id and span id of a step state are not modelled.
- Messages.Message.TakeSnapshot: span, parent span and update time are not modelled.
- Messages.Message.FromSnapshot: span and parent span are not modelled.
- Messages.SnapshotRoundTrip: values only; `Sharing` says what a restored or saved map shares.
- Fleet.EndedStepsNeverRunAgain: requires that on_failure jumps and controllers go forward, as `Controllers.BuiltInsGoForward` shows for the built-in ones.
- Fleet.OneWorkerAtATime: no lease expires while its holder is alive; `Locks` treats late releases.
- Diagnostics.DiagnosticsAreSound: requires that targets are found as the router looks them up; the target of a cel step is not checked by the diagnostics, so nothing is claimed about it.
- The redelivery of a stopped message goes on past the gate that stopped it; no gate is claimed to hold across deliveries.
- Numbers are reals: NaN, infinities and rounding of `float64` are not modelled.
- Unicode case folding outside the characters whose lower case is ASCII.
- Trace and span identifiers, UUID generation, wall-clock timestamps and durations in history.
- HTTP, Kafka, SQS, SNS and AWS calls, metrics, logging and middleware; a handler is an arbitrary answer.
- CEL compilation and evaluation, YAML and JSON parsing, file access and path resolution: parameters.
- FileStateStore: its lock uses separate file-system steps.
- DynamoDB's own expiry deletion, retries and consistency: each conditional write is one atomic step.
- app/framework: a second copy of the loader and the delivery.
- Planner and business-rule tools, redaction, configuration defaults, the rest of the Studio and the infrastructure.
- Reading a project file back with the YAML library: only the raw script block is followed.
