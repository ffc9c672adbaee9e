/**
 The loop driver of a cancellable unit of work.

 The user's `for_each` step is modelled by the sequence of outcomes it
 produces, one per invocation. A finite sequence is an observed prefix of the
 step's behaviour: when a driver consumes all of it without reaching a
 terminal outcome, it reports `Running` (the real loop would keep going).
 Both driving modes are total functions returning the loop's exit and the
 number of times the step was invoked.
 */
module Loop {

  /** What one step asks the driver to do next. */
  datatype LoopState = Continue | Break

  /** The value a step, and a whole loop, hands back: success or a typed error. */
  datatype Result<+T, +E> = Ok(value: T) | Err(error: E)

  /** The outcome of one invocation of the user's step. */
  type StepResult<E> = Result<LoopState, E>

  /** How a driver left the observed prefix: still looping, or returned a value. */
  datatype Exit<+E> = Running | Returned(result: Result<(), E>)

  /** A driver's exit together with the number of step invocations it made. */
  datatype Outcome<+E> = Outcome(exit: Exit<E>, calls: nat)

  predicate IsContinue<E>(s: StepResult<E>) {
    s.Ok? && s.value.Continue?
  }

  /** Every one of the first `n` outcomes says `Continue`. */
  predicate ContinuesBefore<E>(steps: seq<StepResult<E>>, n: nat)
    requires n <= |steps|
  {
    forall i :: 0 <= i < n ==> IsContinue(steps[i])
  }

  /** The loop's result once a step has stopped it: `Break` is success, an error is returned as is. */
  function Terminal<E>(s: StepResult<E>): Result<(), E>
    requires !IsContinue(s)
  {
    match s
    case Ok(_) => Ok(())
    case Err(e) => Err(e)
  }

  /** The `n`-th invocation (counting from one) is the first that does not say `Continue`, and `r` is its verdict. */
  ghost predicate StoppedAt<E>(steps: seq<StepResult<E>>, n: nat, r: Result<(), E>) {
    && 0 < n <= |steps|
    && ContinuesBefore(steps, n - 1)
    && !IsContinue(steps[n - 1])
    && r == Terminal(steps[n - 1])
  }

  /** The synchronous driver (`Cancellable::run`): step until `Break` or the first error. */
  function Run<E>(steps: seq<StepResult<E>>): (o: Outcome<E>)
    ensures o.calls <= |steps|
    ensures o.exit.Running? ==> o.calls == |steps| && ContinuesBefore(steps, |steps|)
    ensures o.exit.Returned? ==> StoppedAt(steps, o.calls, o.exit.result)
    decreases |steps|
  {
    if |steps| == 0 then
      Outcome(Running, 0)
    else
      match steps[0]
      case Ok(Continue) =>
        var rest := Run(steps[1..]);
        Outcome(rest.exit, rest.calls + 1)
      case Ok(Break) => Outcome(Returned(Ok(())), 1)
      case Err(e) => Outcome(Returned(Err(e)), 1)
  }

  /**
   The loop run on the spawned thread: before each step it reads the shared
   flag (`flagReads[i]` is the value seen before the `i`-th step) and returns
   `Ok(())` as soon as it reads `false`.
   */
  function SpawnedLoop<E>(flagReads: seq<bool>, steps: seq<StepResult<E>>): (o: Outcome<E>)
    ensures o.calls <= |flagReads| && o.calls <= |steps|
    ensures forall i :: 0 <= i < o.calls ==> flagReads[i]
    ensures o.exit.Running? ==>
      && ContinuesBefore(steps, o.calls)
      && (o.calls == |flagReads| || (o.calls == |steps| && flagReads[o.calls]))
    ensures o.exit.Returned? ==>
      || (o.calls < |flagReads| && !flagReads[o.calls] && ContinuesBefore(steps, o.calls) && o.exit.result == Ok(()))
      || StoppedAt(steps, o.calls, o.exit.result)
    decreases |steps|
  {
    if |flagReads| == 0 then
      Outcome(Running, 0)
    else if !flagReads[0] then
      Outcome(Returned(Ok(())), 0)
    else if |steps| == 0 then
      Outcome(Running, 0)
    else
      match steps[0]
      case Ok(Continue) =>
        var rest := SpawnedLoop(flagReads[1..], steps[1..]);
        Outcome(rest.exit, rest.calls + 1)
      case Ok(Break) => Outcome(Returned(Ok(())), 1)
      case Err(e) => Outcome(Returned(Err(e)), 1)
  }

  function Min(a: nat, b: nat): nat {
    if a <= b then a else b
  }

  // The contracts of `Run` and `SpawnedLoop` determine each result uniquely,
  // so most of the facts below follow from those contracts alone.

  /** A run whose first non-`Continue` outcome is at index `k` makes exactly `k + 1` calls and returns that outcome's verdict. */
  lemma RunStopsAtFirstStop<E>(steps: seq<StepResult<E>>, k: nat)
    requires k < |steps|
    requires ContinuesBefore(steps, k)
    requires !IsContinue(steps[k])
    ensures Run(steps) == Outcome(Returned(Terminal(steps[k])), k + 1)
  {
  }

  /** `run` returns `Ok(())` exactly when a `Break` is produced with no error before it. */
  lemma RunOkIffBreakBeforeError<E>(steps: seq<StepResult<E>>)
    ensures Run(steps).exit == Returned(Ok(())) <==>
      exists k :: 0 <= k < |steps| && steps[k] == Ok(Break) && forall i :: 0 <= i < k ==> steps[i].Ok?
  {
  }

  /** `run` returns `Err(e)` exactly when `Err(e)` is produced after nothing but `Continue`s; `e` is passed through unchanged. */
  lemma RunErrIffErrorFirst<E>(steps: seq<StepResult<E>>, e: E)
    ensures Run(steps).exit == Returned(Err(e)) <==>
      exists k :: 0 <= k < |steps| && steps[k] == Err(e) && ContinuesBefore(steps, k)
  {
  }

  /** Once `run` has returned, the outcomes a later call would have produced play no part: no call follows the stop. */
  lemma RunIgnoresLaterSteps<E>(steps: seq<StepResult<E>>, later: seq<StepResult<E>>)
    requires Run(steps).exit.Returned?
    ensures Run(steps + later) == Run(steps)
  {
    var k := Run(steps).calls - 1;
    assert forall i :: 0 <= i <= k ==> (steps + later)[i] == steps[i];
    RunStopsAtFirstStop(steps + later, k);
  }

  /** `Continue` never ends `run`: a prefix of `Continue`s only adds its length to the call count. */
  lemma {:induction false} RunSkipsContinues<E>(prefix: seq<StepResult<E>>, steps: seq<StepResult<E>>)
    requires ContinuesBefore(prefix, |prefix|)
    ensures Run(prefix + steps) == Outcome(Run(steps).exit, Run(steps).calls + |prefix|)
    decreases |prefix|
  {
    if |prefix| == 0 {
      assert prefix + steps == steps;
    } else {
      assert (prefix + steps)[1..] == prefix[1..] + steps;
      assert IsContinue(prefix[0]);
      RunSkipsContinues(prefix[1..], steps);
    }
  }

  /** Three `Continue`s then `Break`: `run` returns `Ok(())` after exactly four calls. */
  lemma RunScenarioBreakAfterThree<E>()
    ensures Run<E>([Ok(Continue), Ok(Continue), Ok(Continue), Ok(Break)]) == Outcome(Returned(Ok(())), 4)
  {
  }

  /** Two `Continue`s then `Err(e)`: `run` returns `Err(e)` after exactly three calls; a fourth outcome is never asked for. */
  lemma RunScenarioErrorAfterTwo<E>(e: E, fourth: StepResult<E>)
    ensures Run([Ok(Continue), Ok(Continue), Err(e), fourth]) == Outcome(Returned(Err(e)), 3)
  {
    var steps := [Ok(Continue), Ok(Continue), Err(e), fourth];
    RunStopsAtFirstStop(steps, 2);
  }

  /** A flag already `false` at the first check stops the spawned loop with `Ok(())` before any step. */
  lemma SpawnedCancelledBeforeFirstStep<E>(flagReads: seq<bool>, steps: seq<StepResult<E>>)
    requires 0 < |flagReads| && !flagReads[0]
    ensures SpawnedLoop(flagReads, steps) == Outcome(Returned(Ok(())), 0)
  {
  }

  /** While every flag read is `true`, the spawned loop behaves exactly like `run`. */
  lemma SpawnedMatchesRun<E>(flagReads: seq<bool>, steps: seq<StepResult<E>>)
    requires forall i :: 0 <= i < |flagReads| ==> flagReads[i]
    requires Run(steps).calls <= |flagReads|
    ensures SpawnedLoop(flagReads, steps) == Run(steps)
  {
  }

  /**
   A spawned loop that first reads `false` at check `k` is `run` on the first
   `k` outcomes, where running out of those outcomes counts as a graceful
   `Ok(())` stop after `k` calls.
   */
  lemma SpawnedIsRunCutAtCancel<E>(flagReads: seq<bool>, steps: seq<StepResult<E>>, k: nat)
    requires k < |flagReads| && !flagReads[k]
    requires forall i :: 0 <= i < k ==> flagReads[i]
    ensures var cut := Run(steps[..Min(k, |steps|)]);
      SpawnedLoop(flagReads, steps) ==
        if cut.exit.Running? && k <= |steps| then Outcome(Returned(Ok(())), k) else cut
  {
  }

  /**
   Cancellation is never an error: the spawned loop never makes more calls
   than `run`, any error it returns is `run`'s error at the same call, and any
   stop `run` would not make is a cancellation reported as `Ok(())`.
   */
  lemma CancellationIsNeverAnError<E>(flagReads: seq<bool>, steps: seq<StepResult<E>>)
    ensures SpawnedLoop(flagReads, steps).calls <= Run(steps).calls
    ensures SpawnedLoop(flagReads, steps).exit.Returned? && SpawnedLoop(flagReads, steps).exit.result.Err? ==>
      SpawnedLoop(flagReads, steps) == Run(steps)
    ensures SpawnedLoop(flagReads, steps).exit.Returned? && SpawnedLoop(flagReads, steps) != Run(steps) ==>
      var o := SpawnedLoop(flagReads, steps);
      o.exit.result == Ok(()) && o.calls < |flagReads| && !flagReads[o.calls]
  {
  }
}
