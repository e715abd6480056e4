/** One list of stamps serves every search: each search gets two values that no entry can hold yet. */
module OpenClosed {
  /** numeric_limits<unsigned>::max() */
  const MAX_STAMP: nat := 0xffff_ffff
  const WIDTH: nat := 2

  /** A stamp left behind: below the next marker, or one of the last pair before the markers wrap. */
  predicate Stale(stamp: nat, marker: nat) {
    stamp < marker || stamp == MAX_STAMP - WIDTH || stamp == MAX_STAMP - WIDTH + 1
  }

  class OpenClosedList {
    const list: array<nat>
    /** The marker that the next view gets. */
    var next: nat

    ghost predicate Valid()
      reads this, list
    {
      && 1 <= next <= MAX_STAMP - WIDTH && next % 2 == 1
      && forall i :: 0 <= i < list.Length ==> Stale(list[i], next)
    }

    constructor (capacity: nat)
      ensures Valid() && fresh(list) && list.Length == capacity
    {
      list := new nat[capacity](_ => 0);
      next := 1;
    }

    /** A view over this list while `marker` is in use: what its operations keep. */
    ghost predicate InUse(marker: nat)
      reads this, list
    {
      && 1 <= marker <= MAX_STAMP - WIDTH && marker % 2 == 1
      && next == (if marker == MAX_STAMP - WIDTH then 1 else marker + WIDTH)
      && forall i :: 0 <= i < list.Length ==> Stale(list[i], next)
    }

    predicate IsClosed(marker: nat, index: nat)
      requires index < list.Length
      reads list
    {
      list[index] == marker + 1
    }

    predicate IsOpen(marker: nat, index: nat)
      requires index < list.Length
      reads list
    {
      list[index] == marker
    }

    /**
     * clear_and_make_view: in the new view no index is open or closed, however many searches came
     * before, and its stamps fit the stamp type.
     */
    method ClearAndMakeView() returns (marker: nat)
      requires Valid()
      modifies this`next, list
      ensures InUse(marker) && marker == old(next) && marker + 1 <= MAX_STAMP
      ensures forall i :: 0 <= i < list.Length ==> !IsOpen(marker, i) && !IsClosed(marker, i)
    {
      marker := next;
      if MAX_STAMP - WIDTH <= next {
        for i := 0 to list.Length
          invariant forall j :: 0 <= j < i ==> list[j] == 0
        {
          list[i] := 0;
        }
        next := 1;
      } else {
        next := next + WIDTH;
      }
    }

    method Open(marker: nat, index: nat)
      requires InUse(marker) && index < list.Length
      modifies list
      ensures InUse(marker) && IsOpen(marker, index)
      ensures forall i :: 0 <= i < list.Length && i != index ==> list[i] == old(list[i])
    {
      list[index] := marker;
    }

    method Close(marker: nat, index: nat)
      requires InUse(marker) && index < list.Length
      modifies list
      ensures InUse(marker) && IsClosed(marker, index)
      ensures forall i :: 0 <= i < list.Length && i != index ==> list[i] == old(list[i])
    {
      list[index] := marker + 1;
    }
  }
}
