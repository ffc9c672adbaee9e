/**
 The cancellation flag and its cancellers.

 Every spawned loop owns one shared boolean, `true` meaning "keep running".
 The flags of all loops live in one store indexed by `FlagId`; a `Canceller`
 is a reference to one cell of it, and cloning one copies the reference, so
 every clone names the same flag. The only write ever made to a flag stores
 `false`.
 */
module Flag {

  type FlagId = nat

  /** A shared reference to the `keep_running` flag of one spawned loop. */
  datatype Canceller = Canceller(keepRunning: FlagId)

  /** The store of all flags: `flags[id]` is the current value of flag `id`. */
  type Flags = seq<bool>

  /** A freshly created flag and the store holding it. */
  datatype Allocation = Allocation(id: FlagId, flags: Flags)

  /** Some canceller in `cs` refers to flag `id`. */
  predicate Targets(cs: seq<Canceller>, id: FlagId) {
    exists j :: 0 <= j < |cs| && cs[j].keepRunning == id
  }

  /** Some canceller in one of the first `n` batches refers to flag `id`. */
  predicate TargetedBefore(batches: seq<seq<Canceller>>, n: nat, id: FlagId)
    requires n <= |batches|
  {
    exists i :: 0 <= i < n && Targets(batches[i], id)
  }

  /** Creating the flag of a new loop: a new cell, initially `true`, every other flag untouched. */
  function NewFlag(fs: Flags): (a: Allocation)
    ensures a.id < |a.flags| && a.flags[a.id]
    ensures |fs| <= a.id
    ensures a.flags[..|fs|] == fs
  {
    Allocation(|fs|, fs + [true])
  }

  /** `Canceller::cancel`: store `false` into the referenced flag. */
  function Cancel(fs: Flags, c: Canceller): (r: Flags)
    requires c.keepRunning < |fs|
    ensures |r| == |fs|
    ensures !r[c.keepRunning]
    ensures forall id :: 0 <= id < |fs| && id != c.keepRunning ==> r[id] == fs[id]
  {
    fs[c.keepRunning := false]
  }

  /** `Canceller::clone` (derived): a new reference to the same flag. */
  function Clone(c: Canceller): (d: Canceller)
    ensures d.keepRunning == c.keepRunning
  {
    Canceller(c.keepRunning)
  }

  /**
   The cancels `cs` performed one after another, in order. A canceller whose
   flag lies outside `fs` belongs to a loop spawned after the store was taken;
   its cancel writes that loop's own flag and leaves `fs` as it is. A flag of
   `fs` ends up `true` exactly when it was `true` and none of `cs` refers to
   it: the order and the number of the cancels make no difference.
   */
  function CancelAll(fs: Flags, cs: seq<Canceller>): (r: Flags)
    ensures |r| == |fs|
    ensures forall id :: 0 <= id < |fs| ==> (r[id] <==> fs[id] && !Targets(cs, id))
    decreases |cs|
  {
    if |cs| == 0 then
      fs
    else
      var first := if cs[0].keepRunning < |fs| then Cancel(fs, cs[0]) else fs;
      var rest := CancelAll(first, cs[1..]);
      assert forall id :: Targets(cs, id) <==> cs[0].keepRunning == id || Targets(cs[1..], id) by {
        forall id | Targets(cs[1..], id) ensures Targets(cs, id) {
          var j :| 0 <= j < |cs[1..]| && cs[1..][j].keepRunning == id;
          assert cs[j + 1].keepRunning == id;
        }
        forall id | Targets(cs, id) && cs[0].keepRunning != id ensures Targets(cs[1..], id) {
          var j :| 0 <= j < |cs| && cs[j].keepRunning == id;
          assert cs[1..][j - 1].keepRunning == id;
        }
      }
      rest
  }

  /**
   The values loop `id` reads from its flag, one read per check. Before the
   `i`-th check the cancels of `batches[i]` land (those made by other threads
   since the previous check). The `i`-th read is `true` exactly when the flag
   started `true` and no cancel of it landed in `batches[0..i]`.
   */
  function Reads(fs: Flags, id: FlagId, batches: seq<seq<Canceller>>): (r: seq<bool>)
    requires id < |fs|
    ensures |r| == |batches|
    ensures forall i :: 0 <= i < |r| ==> (r[i] <==> fs[id] && !TargetedBefore(batches, i + 1, id))
    decreases |batches|
  {
    if |batches| == 0 then
      []
    else
      var next := CancelAll(fs, batches[0]);
      var rest := Reads(next, id, batches[1..]);
      assert TargetedBefore(batches, 1, id) <==> Targets(batches[0], id);
      assert forall n :: 2 <= n <= |batches| ==>
        (TargetedBefore(batches, n, id) <==> Targets(batches[0], id) || TargetedBefore(batches[1..], n - 1, id))
      by {
        forall n | 2 <= n <= |batches| && TargetedBefore(batches, n, id) && !Targets(batches[0], id)
          ensures TargetedBefore(batches[1..], n - 1, id)
        {
          var k :| 0 <= k < n && Targets(batches[k], id);
          assert batches[1..][k - 1] == batches[k];
        }
        forall n | 2 <= n <= |batches| && TargetedBefore(batches[1..], n - 1, id)
          ensures TargetedBefore(batches, n, id)
        {
          var k :| 0 <= k < n - 1 && Targets(batches[1..][k], id);
          assert batches[1..][k] == batches[k + 1];
        }
      }
      [next[id]] + rest
  }

  /** Cancelling twice through the same canceller has the effect of cancelling once. */
  lemma CancelIdempotent(fs: Flags, c: Canceller)
    requires c.keepRunning < |fs|
    ensures Cancel(Cancel(fs, c), c) == Cancel(fs, c)
  {
  }

  /** Cancels from two threads land in either order with the same effect. */
  lemma CancelCommutes(fs: Flags, c: Canceller, d: Canceller)
    requires c.keepRunning < |fs| && d.keepRunning < |fs|
    ensures Cancel(Cancel(fs, c), d) == Cancel(Cancel(fs, d), c)
  {
  }

  /** Cancelling through a clone has exactly the effect of cancelling through the original. */
  lemma CancelThroughClone(fs: Flags, c: Canceller)
    requires c.keepRunning < |fs|
    ensures Cancel(fs, Clone(c)) == Cancel(fs, c)
  {
  }

  /** A flag is never re-armed: once a read sees `false`, every later read sees `false`. */
  lemma ReadsNeverRearm(fs: Flags, id: FlagId, batches: seq<seq<Canceller>>, i: nat, j: nat)
    requires id < |fs|
    requires i <= j < |batches|
    requires !Reads(fs, id, batches)[i]
    ensures !Reads(fs, id, batches)[j]
  {
  }

  /** A cancel of flag `id` that lands before check `i` makes check `i` and every later check read `false`. */
  lemma CancelIsObserved(fs: Flags, id: FlagId, batches: seq<seq<Canceller>>, i: nat, c: Canceller)
    requires id < |fs|
    requires i < |batches|
    requires c.keepRunning == id
    requires exists j :: 0 <= j < |batches[i]| && batches[i][j] == c
    ensures forall j :: i <= j < |batches| ==> !Reads(fs, id, batches)[j]
  {
  }

  /** A flag that starts `true` and that no canceller refers to is read `true` at every check. */
  lemma UntargetedStaysTrue(fs: Flags, id: FlagId, batches: seq<seq<Canceller>>)
    requires id < |fs|
    requires fs[id] && !TargetedBefore(batches, |batches|, id)
    ensures forall i :: 0 <= i < |batches| ==> Reads(fs, id, batches)[i]
  {
  }

  /** The reads of a flag depend only on which batches hold a cancel of it. */
  lemma SameTargetsSameReads(fs: Flags, id: FlagId, b1: seq<seq<Canceller>>, b2: seq<seq<Canceller>>)
    requires id < |fs|
    requires |b1| == |b2|
    requires forall i :: 0 <= i < |b1| ==> (Targets(b1[i], id) <==> Targets(b2[i], id))
    ensures Reads(fs, id, b1) == Reads(fs, id, b2)
  {
  }
}
