/**
 * The bounded runner `spread`: one loop that starts tasks and waits, and completions that may come at
 * any time in between. Each step of either is a method; any interleaving of them is a run.
 */
module Spread {
  import opened Wrappers

  /** A promise with its resolver. */
  type Deferred = nat

  /** Where the loop stands: about to ask for a value, waiting for a free slot, for the last tasks, or done. */
  datatype Phase = Top | Waiting | Draining | Returned

  /** From `offset` on, the slots hold distinct promises that are still to be settled. */
  predicate Unsettled(pending: seq<Deferred>, offset: nat, settled: set<Deferred>) {
    && offset <= |pending|
    && (forall i :: offset <= i < |pending| ==> pending[i] !in settled)
    && forall i, j :: offset <= i < j < |pending| ==> pending[i] != pending[j]
  }

  /** Before it, they were settled, except that the first slot may repeat a later one, short of `count`. */
  predicate SettledBefore(pending: seq<Deferred>, offset: nat, count: nat, settled: set<Deferred>)
    requires offset <= |pending| && count <= |pending|
  {
    && (forall i :: 0 < i < offset ==> pending[i] in settled)
    && (offset > 0 ==> pending[0] in settled || exists i :: offset <= i < count && pending[i] == pending[0])
  }

  /** What `pending[0] = pending[offset--]; pending[offset] = pending.at(-1); pending.pop()` makes of the slots. */
  function Reused(pending: seq<Deferred>, offset: nat): (r: seq<Deferred>)
    requires 0 < offset < |pending|
    ensures |r| == |pending| - 1
  {
    pending[0 := pending[offset]][offset - 1 := pending[|pending| - 1]][..|pending| - 1]
  }

  /** A slot is reused: the new promise joins the unsettled ones, one place earlier. */
  lemma ReusedKeeps(pending: seq<Deferred>, offset: nat, settled: set<Deferred>)
    requires 0 < offset < |pending| && Unsettled(pending, offset, settled)
    requires SettledBefore(pending, offset, |pending| - 1, settled)
    ensures var r := Reused(pending, offset);
      Unsettled(r, offset - 1, settled) && SettledBefore(r, offset - 1, |r|, settled)
  {
    var r, last := Reused(pending, offset), |pending| - 1;
    assert r[offset - 1] == pending[last];
    assert forall i :: offset <= i < last ==> r[i] == pending[i];
    if offset > 1 {
      assert r[0] == pending[offset] == (if offset == last then r[offset - 1] else r[offset]);
    }
  }

  lemma SomeLeft(pending: seq<Deferred>, offset: nat, settled: set<Deferred>)
    requires Unsettled(pending, offset, settled) && offset < |pending|
    ensures exists i :: 0 <= i < |pending| && pending[i] !in settled
  {
    assert pending[offset] !in settled;
  }

  /** A new promise at the end is unsettled like the rest. */
  lemma PushedKeeps(pending: seq<Deferred>, offset: nat, settled: set<Deferred>, d: Deferred)
    requires Unsettled(pending, offset, settled) && SettledBefore(pending, offset, |pending|, settled)
    requires d !in settled && forall i :: 0 <= i < |pending| ==> pending[i] != d
    ensures var r := pending + [d];
      Unsettled(r, offset, settled) && SettledBefore(r, offset, |pending|, settled) && SettledBefore(r, offset, |r|, settled)
  {
    var r := pending + [d];
    if offset > 0 && pending[0] !in settled {
      var i :| offset <= i < |pending| && pending[i] == pending[0];
      assert r[i] == r[0];
    }
  }

  class Run {
    const concurrency: nat
    var pending: seq<Deferred>
    var offset: nat
    var settled: set<Deferred>
    var created: nat
    var phase: Phase

    ghost var started: nat
    ghost var finished: nat

    constructor (concurrency: nat)
      requires concurrency >= 1
      ensures Valid() && this.concurrency == concurrency && phase == Top && started == 0 && created == 0
      ensures pending == [] && offset == 0 && settled == {}
    {
      this.concurrency := concurrency;
      pending := [];
      offset := 0;
      settled := {};
      created := 0;
      phase := Top;
      started, finished := 0, 0;
    }

    /** Slots whose task was started; while the loop waits, the newest has none yet. */
    function Slots(): int
      reads this
    {
      if phase == Waiting then |pending| - 1 else |pending|
    }

    ghost predicate Valid()
      reads this
    {
      && concurrency >= 1 && |pending| <= (if phase == Waiting then concurrency + 1 else concurrency)
      && (phase == Waiting ==> |pending| == concurrency + 1)
      && offset <= Slots() && Unsettled(pending, offset, settled)
      && SettledBefore(pending, offset, Slots(), settled)
      && (forall d :: d in settled ==> d < created) && (forall i :: 0 <= i < |pending| ==> pending[i] < created)
      && finished <= started && started - finished == Slots() - offset
      && |settled| == finished
      && (phase == Returned ==> started == finished)
    }

    /** Tasks in flight. */
    ghost function InFlight(): int
      reads this
    {
      started - finished
    }

    /** The iterator has another value: its task starts, or waits for a slot. */
    method Next()
      requires Valid() && phase == Top
      modifies this
      ensures Valid()
      ensures pending == old(pending) + [old(created)] && offset == old(offset) && settled == old(settled)
      ensures created == old(created) + 1
      ensures phase == (if |old(pending)| == concurrency then Waiting else Top)
      ensures started == old(started) + (if phase == Waiting then 0 else 1) && finished == old(finished)
    {
      PushedKeeps(pending, offset, settled, created);
      pending := pending + [created];
      created := created + 1;
      if |pending| > concurrency {
        phase := Waiting;
      } else {
        started := started + 1;
      }
    }

    /** The first promise was settled: its slot is reused, and the waiting task starts. */
    method Resume()
      requires Valid() && phase == Waiting && pending[0] in settled
      modifies this
      ensures Valid() && phase == Top && settled == old(settled)
      ensures pending == Reused(old(pending), old(offset)) && offset == old(offset) - 1
      ensures started == old(started) + 1 && finished == old(finished)
    {
      assert offset > 0;
      ReusedKeeps(pending, offset, settled);
      ghost var before := pending;
      var last := |pending| - 1;
      pending := pending[0 := pending[offset]];
      offset := offset - 1;
      pending := pending[offset := pending[last]];
      pending := pending[..last];
      phase := Top;
      started := started + 1;
      assert pending == Reused(before, offset + 1);
    }

    /** A task completes, whichever it is: it settles a promise that no other has settled. */
    method Complete() returns (d: Deferred)
      requires Valid() && InFlight() > 0
      modifies this
      ensures Valid() && d == old(pending[offset]) && d !in old(settled) && settled == old(settled) + {d}
      ensures pending == old(pending) && offset == old(offset) + 1 && phase == old(phase)
      ensures started == old(started) && finished == old(finished) + 1
    {
      d := pending[offset];
      settled := settled + {d};
      offset := offset + 1;
      finished := finished + 1;
    }

    /** The iterator is done. */
    method Done()
      requires Valid() && phase == Top
      modifies this`phase
      ensures Valid() && phase == Draining
    {
      phase := Draining;
    }

    /** Every promise was settled: spread returns, and every task that it started has finished. */
    method Return()
      requires Valid() && phase == Draining && forall i :: 0 <= i < |pending| ==> pending[i] in settled
      modifies this`phase
      ensures Valid() && phase == Returned && started == finished
    {
      if offset < |pending| {
        SomeLeft(pending, offset, settled);
      }
      phase := Returned;
    }

    /** Never more than `concurrency` tasks are in flight. */
    lemma Bounded()
      requires Valid()
      ensures 0 <= InFlight() <= concurrency
      ensures phase == Top ==> InFlight() == |pending| - offset
    {
    }

    /**
     * While the loop waits, all slots are busy exactly if the offset is 0. It waits in vain exactly if the
     * first slot repeats the promise of a running task.
     */
    lemma SlotsFreeWhileWaiting()
      requires Valid() && phase == Waiting
      ensures InFlight() == concurrency <==> offset == 0
      ensures pending[0] !in settled && InFlight() < concurrency
        <==> exists i :: 0 < offset <= i < concurrency && pending[i] == pending[0]
    {
    }

    /** One task at a time never waits in vain: while it is in flight no slot is free. */
    lemma OneAtATimeWaitsInNeed()
      requires Valid() && phase == Waiting && concurrency == 1 && pending[0] !in settled
      ensures InFlight() == concurrency
    {
    }

    /** The loop never waits for a promise that no running task will settle. */
    lemma NeverStuck()
      requires Valid()
      ensures phase == Waiting && pending[0] !in settled ==> InFlight() > 0
      ensures phase == Draining && (exists d :: d in pending && d !in settled) ==> InFlight() > 0
    {
      if phase == Draining && exists d :: d in pending && d !in settled {
        var i :| 0 <= i < |pending| && pending[i] !in settled;
      }
    }
  }

  /** A run waits for a running task though a slot is free. */
  ghost predicate WaitsInVain(run: Run)
    reads run
  {
    run.Valid() && run.phase == Waiting && run.pending[0] !in run.settled && run.InFlight() < run.concurrency
  }

  /** That needs a concurrency of at least 2. */
  lemma OnlyFromTwoOn(run: Run)
    requires WaitsInVain(run)
    ensures run.concurrency >= 2
  {
    if run.concurrency == 1 { run.OneAtATimeWaitsInNeed(); }
  }

  /** And it can happen for each: the first slot comes to repeat the promise of a running task. */
  method MayWaitWithFreeSlots(concurrency: nat) returns (run: Run)
    requires concurrency >= 2
    ensures fresh(run) && run.concurrency == concurrency && WaitsInVain(run)
  {
    run := new Run(concurrency);
    for i := 0 to concurrency
      invariant fresh(run) && run.Valid() && run.phase == Top && run.offset == 0 && run.settled == {}
      invariant run.concurrency == concurrency && |run.pending| == i == run.created
      invariant forall j :: 0 <= j < i ==> run.pending[j] == j
    {
      run.Next();
    }
    run.Next();
    assert run.pending[0] == 0 && run.pending[1] == 1 && run.pending[2] == 2;
    var a := run.Complete();
    var b := run.Complete();
    run.Resume();
    assert run.pending[0] == 2;
    run.Next();
  }

  /** A run begins only with a concurrency of at least 1. */
  method Begin(concurrency: int) returns (run: Result<Run, string>)
    ensures concurrency < 1 ==> run == Failure("Invalid concurrency")
    ensures concurrency >= 1 ==> run.Success? && run.value.Valid() && run.value.concurrency == concurrency && run.value.phase == Top
  {
    if concurrency < 1 {
      return Failure("Invalid concurrency");
    }
    var started := new Run(concurrency);
    return Success(started);
  }
}
