/**
 Spawning a loop and waiting for it.

 `spawn` creates a fresh flag set to `true`, starts the spawned loop on a
 thread of its own and returns a `Handle` holding a canceller for that flag
 and the thread to join. Other threads run in parallel with the loop; the
 model sees them only through the cancels that land between two of its flag
 checks (`batches[i]` lands just before check `i`). The thread's eventual
 result is recorded in the handle, and `wait` hands it back.
 */
module Handles {
  import opened Loop
  import opened Flag

  datatype Option<+T> = None | Some(value: T)

  /**
   What joining the loop's thread yields: nothing yet (the loop was still
   running when the observed outcomes ran out), the loop's result, or a panic
   of the thread.
   */
  datatype Join<+E> = Pending | Joined(result: Result<(), E>) | Panicked

  /** The owner side of one spawned loop. */
  datatype Handle<+E> = Handle(canceller: Canceller, executor: Join<E>)

  /**
   What `spawn` leaves behind. `flags` is the store at spawn time, just after
   the new flag is created and before any cancel lands; `handle.executor` and
   `calls` describe the thread at the end of the observed run.
   */
  datatype Spawned<+E> = Spawned(handle: Handle<E>, flags: Flags, calls: nat)

  function JoinOf<E>(x: Exit<E>): Join<E> {
    match x
    case Running => Pending
    case Returned(r) => Joined(r)
  }

  /**
   `Cancellable::spawn`. The flag gets a fresh id and starts `true`; the
   thread never panics in this model; it never makes more calls than `run`
   would, and it can only end in an error that `run` would end in too.
   */
  function Spawn<E>(fs: Flags, steps: seq<StepResult<E>>, batches: seq<seq<Canceller>>): (s: Spawned<E>)
    ensures s.handle.canceller.keepRunning == |fs| < |s.flags|
    ensures s.flags[|fs|] && s.flags[..|fs|] == fs
    ensures !s.handle.executor.Panicked?
    ensures s.calls <= Run(steps).calls
    ensures s.handle.executor.Joined? && s.handle.executor.result.Err? ==>
      Run(steps) == Outcome(Returned(s.handle.executor.result), s.calls)
  {
    var a := NewFlag(fs);
    var flagReads := Reads(a.flags, a.id, batches);
    var o := SpawnedLoop(flagReads, steps);
    Spawned(Handle(Canceller(a.id), JoinOf(o.exit)), a.flags, o.calls)
  }

  /** `Handle::canceller`: a new canceller for the loop's own flag. */
  function HandleCanceller<E>(h: Handle<E>): (c: Canceller)
    ensures c.keepRunning == h.canceller.keepRunning
  {
    Clone(h.canceller)
  }

  /**
   `Handle::wait` on a thread that did not panic: the loop's result, unchanged
   (`None` while the loop is still running, where the real call blocks).
   */
  function Wait<E>(h: Handle<E>): (r: Option<Result<(), E>>)
    requires !h.executor.Panicked?
    ensures r.Some? <==> h.executor.Joined?
    ensures r.Some? ==> r.value == h.executor.result
  {
    match h.executor
    case Joined(result) => Some(result)
    case Pending => None
  }

  /**
   A loop nobody cancels behaves like `run`: `wait` returns `run`'s result
   after the same number of calls (given enough flag checks to cover them).
   */
  lemma UncancelledWaitIsRun<E>(fs: Flags, steps: seq<StepResult<E>>, batches: seq<seq<Canceller>>)
    requires !TargetedBefore(batches, |batches|, |fs|)
    requires Run(steps).calls <= |batches|
    ensures Spawn(fs, steps, batches).calls == Run(steps).calls
    ensures Wait(Spawn(fs, steps, batches).handle) ==
      if Run(steps).exit.Returned? then Some(Run(steps).exit.result) else None
  {
  }

  /**
   A cancel through a canceller obtained from the handle, landing before
   check `i`, stops the loop after at most `i` calls. If the first `i`
   outcomes are all known the thread has finished, and if they all say
   `Continue` its result is `Ok(())`.
   */
  lemma CancelThroughHandleStopsLoop<E>(fs: Flags, steps: seq<StepResult<E>>, batches: seq<seq<Canceller>>, i: nat)
    requires i < |batches|
    requires exists j :: 0 <= j < |batches[i]| && batches[i][j] == HandleCanceller(Spawn(fs, steps, batches).handle)
    ensures Spawn(fs, steps, batches).calls <= i
    ensures i <= |steps| ==> Spawn(fs, steps, batches).handle.executor.Joined?
    ensures i <= |steps| && ContinuesBefore(steps, i) ==>
      Wait(Spawn(fs, steps, batches).handle) == Some(Ok(()))
  {
    var a := NewFlag(fs);
    var flagReads := Reads(a.flags, a.id, batches);
    CancelIsObserved(a.flags, a.id, batches, i, HandleCanceller(Spawn(fs, steps, batches).handle));
    assert !flagReads[i];
  }

  /** A cancel that lands before the first check: `wait` returns `Ok(())` and the step is never invoked. */
  lemma CancelBeforeFirstCheck<E>(fs: Flags, steps: seq<StepResult<E>>, batches: seq<seq<Canceller>>)
    requires 0 < |batches| && Targets(batches[0], |fs|)
    ensures Wait(Spawn(fs, steps, batches).handle) == Some(Ok(()))
    ensures Spawn(fs, steps, batches).calls == 0
  {
  }

  /**
   Cancels of the same loop from several threads landing together act as one:
   adding another cancel of the loop's flag to a batch that already holds one
   changes nothing.
   */
  lemma RepeatedCancelActsOnce<E>(fs: Flags, steps: seq<StepResult<E>>, batches: seq<seq<Canceller>>, i: nat, c: Canceller)
    requires i < |batches| && Targets(batches[i], |fs|)
    requires c.keepRunning == |fs|
    ensures Spawn(fs, steps, batches[i := batches[i] + [c]]) == Spawn(fs, steps, batches)
  {
    var more := batches[i := batches[i] + [c]];
    assert Targets(more[i], |fs|) by {
      var j :| 0 <= j < |batches[i]| && batches[i][j].keepRunning == |fs|;
      assert more[i][j] == batches[i][j];
    }
    SameTargetsSameReads(NewFlag(fs).flags, |fs|, batches, more);
  }

  /**
   Cancelling another loop, spawned before or after this one, through any of
   its cancellers, never affects this loop.
   */
  lemma OtherLoopsCancelIgnored<E>(fs: Flags, steps: seq<StepResult<E>>, batches: seq<seq<Canceller>>, i: nat, c: Canceller)
    requires i < |batches|
    requires c.keepRunning != |fs|
    ensures Spawn(fs, steps, batches[i := batches[i] + [c]]) == Spawn(fs, steps, batches)
  {
    var more := batches[i := batches[i] + [c]];
    assert forall id :: Targets(more[i], id) <==> Targets(batches[i], id) || id == c.keepRunning by {
      assert more[i][|batches[i]|] == c;
      forall id | Targets(more[i], id) && id != c.keepRunning ensures Targets(batches[i], id) {
        var j :| 0 <= j < |more[i]| && more[i][j].keepRunning == id;
        assert batches[i][j] == more[i][j];
      }
      forall id | Targets(batches[i], id) ensures Targets(more[i], id) {
        var j :| 0 <= j < |batches[i]| && batches[i][j].keepRunning == id;
        assert more[i][j] == batches[i][j];
      }
    }
    SameTargetsSameReads(NewFlag(fs).flags, |fs|, batches, more);
  }
}
