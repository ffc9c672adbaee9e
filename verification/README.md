# minion: a cancellable background loop, modelled in Dafny

The `minion` crate runs a user-supplied step (`Cancellable::for_each`)
over and over. It has two driving modes:

- `Cancellable::run` drives the loop synchronously. `Continue` keeps looping,
  `Break` ends it with `Ok(())`, and the first `Err(e)` is returned unchanged.
- `Cancellable::spawn` runs the same loop on a thread of its own. Before each
  step it reads a shared `keep_running` flag and stops with `Ok(())` when the
  flag is `false`.

The flag is created `true`. Its only writer, `Canceller::cancel`, stores
`false`. `Handle::canceller` and `Canceller::clone` hand out references to the
same flag, and `Handle::wait` returns the thread's result.

The model is functional:

- The step is the sequence of outcomes it produces, `seq<Result<LoopState, E>>`.
  A finite sequence is an observed prefix. A driver that uses up the prefix
  without stopping reports `Running`.
- Both drivers are total recursive functions that return the exit and the
  number of step calls.
- The flags of all spawned loops live in one store (`Flags = seq<bool>`), and
  a `Canceller` is an index into it.
- Other threads are seen only through their cancels. `batches[i]` is the list
  of cancels that land just before the loop's `i`-th flag check.

Files:

- `loop.dfy` (module `Loop`): `LoopState`, `run`, the spawned loop body, and
  lemmas relating the two drivers.
- `flag.dfy` (module `Flag`): the flag store, `cancel`, `clone`, and the values
  the loop reads from its flag.
- `handle.dfy` (module `Handles`): `spawn`, `Handle::canceller`,
  `Handle::wait`, and the end-to-end properties.

## Model

| member | source | states |
|---|---|---|
| Loop.Run | src/lib.rs:17-26 | Each `run` call before the last saw `Continue`. A returned run stopped on its last call, at the first non-`Continue` outcome, and returns that outcome's verdict (`Break` gives `Ok(())`, `Err(e)` gives `Err(e)`). A run that is still running saw only `Continue` and used every outcome. |
| Loop.SpawnedLoop | src/lib.rs:36-43 | Every step call follows a `true` flag read. The spawned loop ends in one of two ways. Either it read `false` after only `Continue`s and returns `Ok(())`, or a `Break` or error stopped it exactly as in `run`. It is still running only when the reads or the outcomes ran out. |
| Loop.RunStopsAtFirstStop | src/lib.rs:19-22 | If the first non-`Continue` outcome is at index `k`, `run` makes exactly `k + 1` calls and returns that outcome's verdict. |
| Loop.RunOkIffBreakBeforeError | src/lib.rs:17-25 | `run` returns `Ok(())` if and only if a `Break` is produced with no error before it. Both directions are proved. |
| Loop.RunErrIffErrorFirst | src/lib.rs:19-22 | `run` returns `Err(e)` if and only if `Err(e)` is produced after nothing but `Continue`s. The error value is passed through unchanged. |
| Loop.RunIgnoresLaterSteps | src/lib.rs:21-22 | Once `run` has returned, appending further outcomes changes neither its result nor its call count. No step is called after the stop. |
| Loop.RunSkipsContinues | src/lib.rs:18-20 | A prefix of `Continue`s never ends `run`. It only adds its length to the call count. |
| Loop.RunScenarioBreakAfterThree | src/lib.rs:17-25 | Three `Continue`s and then a `Break` make `run` return `Ok(())` after exactly 4 calls. |
| Loop.RunScenarioErrorAfterTwo | src/lib.rs:19-22 | Two `Continue`s and then `Err(e)` make `run` return `Err(e)` after exactly 3 calls, whatever a fourth outcome would be. |
| Loop.SpawnedCancelledBeforeFirstStep | src/lib.rs:36-43 | If the first flag read is `false`, the spawned loop returns `Ok(())` with zero step calls. |
| Loop.SpawnedMatchesRun | src/lib.rs:36-43 | While every flag read is `true`, the spawned loop has the same result and call count as `run` on the same outcomes. |
| Loop.SpawnedIsRunCutAtCancel | src/lib.rs:36-43 | Let check `k` be the first flag read that sees `false`. The spawned loop then behaves like `run` on the first `k` outcomes, and running out of those outcomes is a graceful `Ok(())` stop after `k` calls. |
| Loop.CancellationIsNeverAnError | src/lib.rs:36-43 | The spawned loop never makes more calls than `run`. Any error it returns is `run`'s error at the same call. Any stop that `run` would not make is a `false` flag read reported as `Ok(())`. |
| Flag.NewFlag | src/lib.rs:32 | A new flag gets an id that no existing flag has, starts `true`, and leaves every other flag unchanged. |
| Flag.Cancel | src/lib.rs:90-92 | `cancel` makes its flag `false` and leaves every other flag unchanged. |
| Flag.Clone | src/lib.rs:84-87 | A cloned canceller refers to the same flag as the original. |
| Flag.CancelAll | src/lib.rs:90-92 | After a sequence of cancels, a flag is `true` exactly when it was `true` and no cancel referred to it. The order and the number of cancels make no difference. Cancels of flags outside the store belong to loops spawned later and leave the store unchanged. |
| Flag.Reads | src/lib.rs:36 | The loop's `i`-th flag read is `true` exactly when the flag started `true` and no cancel of it landed before that check. |
| Flag.CancelIdempotent | src/lib.rs:90-92 | Cancelling twice through the same canceller has the same effect as cancelling once. |
| Flag.CancelCommutes | src/lib.rs:90-92 | Two cancels have the same effect in either order. |
| Flag.CancelThroughClone | src/lib.rs:84-92 | Cancelling through a clone has exactly the effect of cancelling through the original. |
| Flag.ReadsNeverRearm | src/lib.rs:89-93 | The flag never returns to `true`: once a read sees `false`, every later read sees `false`. |
| Flag.CancelIsObserved | src/lib.rs:36 | A cancel of the loop's flag that lands before check `i` makes check `i` and every later check read `false`. |
| Flag.UntargetedStaysTrue | src/lib.rs:32 | A flag that starts `true` and that no cancel refers to is read `true` at every check. |
| Flag.SameTargetsSameReads | src/lib.rs:36 | The loop's flag reads depend only on which batches hold a cancel of its flag. |
| Handles.Spawn | src/lib.rs:27-50 | `spawn` gives the loop a fresh flag that starts `true` and a handle for that flag. The thread never makes more step calls than `run`. It can end in an error only if `run` ends in that same error after the same number of calls. |
| Handles.HandleCanceller | src/lib.rs:59-63 | `Handle::canceller` returns a canceller for the flag of the handle's own loop. |
| Handles.Wait | src/lib.rs:65-73 | If the thread did not panic, `wait` returns the loop's result unchanged. |
| Handles.UncancelledWaitIsRun | src/lib.rs:35-44 | If nobody cancels the loop's flag, `wait` returns `run`'s result after the same number of calls. |
| Handles.CancelThroughHandleStopsLoop | src/lib.rs:59-62 | A cancel through a canceller from `Handle::canceller`, landing before check `i`, stops the loop after at most `i` calls. When the first `i` outcomes are known, the loop has then finished. Its result is `Ok(())` when those outcomes were all `Continue`. |
| Handles.CancelBeforeFirstCheck | src/lib.rs:36-43 | A cancel that lands before the first check makes `wait` return `Ok(())` with the step never called. |
| Handles.RepeatedCancelActsOnce | src/lib.rs:90-92 | Several cancels of the same loop landing together act like one. |
| Handles.OtherLoopsCancelIgnored | src/lib.rs:32-34 | Cancelling another spawned loop never affects this loop, because each spawn has its own flag. This holds whether the other loop was spawned before or after this one. |

## Left out

- Real threads are not modelled: `thread::spawn`, `join`, `Arc` reference
  counting and the `SeqCst` ordering of the `AtomicBool`. Concurrency shows up
  only as cancels landing between the loop's flag checks. Each check sees
  every cancel that landed before it.
- Handles.Wait: the panic re-raise branch is not modelled (src/lib.rs:68-71).
  `Wait` requires that the thread did not panic, and `Spawn` never produces a
  panicked thread. Where the real `wait` blocks on a loop that is still
  running, the model returns `None`.
- `Deref` from `Handle` to `Canceller` (src/lib.rs:76-82) is modelled only as
  the handle's `canceller` field. Cancelling through the handle is cancelling
  through that canceller.
- The step's own state and side effects are not modelled. A step is known only
  by the outcome it returns. A step that never returns is a finite prefix that
  stays `Running`.
- Dropping the flag when the last reference goes away is not modelled. In the
  model, flags are never removed from the store.
- `examples/basic.rs` is not modelled. It is an external consumer of the
  library that accepts TCP connections.
