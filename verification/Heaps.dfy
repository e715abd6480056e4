/** Priority queue of a fixed capacity. Score updates push a second entry: stale ones are left inside. */
module Heaps {
  datatype HeapNode = HeapNode(pos: nat, score: int)

  function Parent(i: nat): nat
    requires i > 0
  {
    (i - 1) / 2
  }

  /** Every node but the root scores at least its parent, except possibly node `hole`. */
  predicate OrderedBut(s: seq<HeapNode>, hole: nat) {
    forall i :: 0 < i < |s| && i != hole ==> s[Parent(i)].score <= s[i].score
  }

  predicate Ordered(s: seq<HeapNode>) {
    forall i :: 0 < i < |s| ==> s[Parent(i)].score <= s[i].score
  }

  /** The children of `hole` score at least its parent. */
  predicate Bridged(s: seq<HeapNode>, hole: nat) {
    forall i :: 0 < i < |s| && Parent(i) == hole && 0 < hole ==> s[Parent(hole)].score <= s[i].score
  }

  /** Same nodes, counting duplicates. */
  predicate Permutes(a: seq<HeapNode>, b: seq<HeapNode>) {
    multiset(a) == multiset(b)
  }

  /** The nodes of `a` are those of `b` and one more. */
  predicate Adds(a: seq<HeapNode>, b: seq<HeapNode>, x: HeapNode) {
    multiset(a) == multiset(b) + multiset{x}
  }

  lemma PermutesSelf(a: seq<HeapNode>)
    ensures Permutes(a, a)
  {
  }

  lemma PermutesTrans(a: seq<HeapNode>, b: seq<HeapNode>, c: seq<HeapNode>)
    requires Permutes(a, b) && Permutes(b, c)
    ensures Permutes(a, c)
  {
  }

  lemma PermutesBack(a: seq<HeapNode>, b: seq<HeapNode>)
    requires Permutes(a, b)
    ensures Permutes(b, a)
  {
  }

  lemma AddedNode(a: seq<HeapNode>, b: seq<HeapNode>, x: HeapNode)
    requires Adds(a, b, x)
    ensures multiset(b) == multiset(a) - multiset{x}
  {
  }

  lemma AddsTrans(a: seq<HeapNode>, b: seq<HeapNode>, c: seq<HeapNode>, d: seq<HeapNode>, x: HeapNode)
    requires Permutes(a, b) && Adds(b, c, x) && Permutes(c, d)
    ensures Adds(a, d, x)
  {
  }

  lemma {:induction false} RootIsLeast(s: seq<HeapNode>, i: nat)
    requires Ordered(s) && i < |s|
    ensures s[0].score <= s[i].score
  {
    if i > 0 {
      RootIsLeast(s, Parent(i));
    }
  }

  lemma Moved(s: seq<HeapNode>, i: nat, j: nat)
    requires i < |s| && j < |s|
    ensures Permutes(s[i := s[j]][j := s[i]], s)
  {
    var u := s[i := s[j]];
    var t := u[j := s[i]];
    if i != j {
      Replaced(s, i, s[j]);
      Replaced(u, j, s[i]);
      assert u[j] == s[j];
      MovedBag(multiset(s), s[i], s[j]);
    } else {
      assert t == s;
    }
  }

  lemma MovedBag(m: multiset<HeapNode>, x: HeapNode, y: HeapNode)
    requires x in m
    ensures m - multiset{x} + multiset{y} - multiset{y} + multiset{x} == m
  {
  }

  lemma Replaced(s: seq<HeapNode>, i: nat, x: HeapNode)
    requires i < |s|
    ensures multiset(s[i := x]) == multiset(s) - multiset{s[i]} + multiset{x}
    ensures s[i] in multiset(s)
  {
    assert s == s[..i] + [s[i]] + s[i + 1..];
    assert s[i := x] == s[..i] + [x] + s[i + 1..];
  }

  function Swapped(s: seq<HeapNode>, i: nat, j: nat): (t: seq<HeapNode>)
    requires i < |s| && j < |s|
    ensures |t| == |s| && t[i] == s[j] && t[j] == s[i]
    ensures forall k :: 0 <= k < |s| && k != i && k != j ==> t[k] == s[k]
  {
    s[i := s[j]][j := s[i]]
  }

  /** Swapping an out-of-order node with its parent moves the hole up. */
  lemma SwapUp(s: seq<HeapNode>, hole: nat)
    requires 0 < hole < |s| && OrderedBut(s, hole) && Bridged(s, hole)
    requires s[Parent(hole)].score > s[hole].score
    ensures var p := Parent(hole); var t := Swapped(s, hole, p);
      OrderedBut(t, p) && Bridged(t, p) && Permutes(t, s)
  {
    Moved(s, hole, Parent(hole));
  }

  /** A node that is in order with its parent leaves no hole. */
  lemma Settled(s: seq<HeapNode>, hole: nat)
    requires hole < |s| && OrderedBut(s, hole) && (hole == 0 || s[Parent(hole)].score <= s[hole].score)
    ensures Ordered(s)
  {
  }

  /** Filling a node with its lesser child keeps the order; the child becomes the hole. */
  lemma FillDown(s: seq<HeapNode>, hole: nat, child: nat, top: HeapNode)
    requires child < |s| && (child == 2 * hole + 1 || child == 2 * hole + 2) && Ordered(s)
    requires s[child].score <= s[2 * hole + 1].score
    requires 2 * hole + 2 < |s| ==> s[child].score <= s[2 * hole + 2].score
    ensures var t := s[hole := s[child]]; Ordered(t) && Permutes(t[child := top], s[hole := top])
  {
    hide Ordered, Permutes;
    var v := s[hole := top];
    Moved(v, hole, child);
    assert v[hole := v[child]][child := v[hole]] == s[hole := s[child]][child := top];
    FilledIsOrdered(s, hole, child);
  }

  lemma FilledIsOrdered(s: seq<HeapNode>, hole: nat, child: nat)
    requires child < |s| && (child == 2 * hole + 1 || child == 2 * hole + 2) && Ordered(s)
    requires s[child].score <= s[2 * hole + 1].score
    requires 2 * hole + 2 < |s| ==> s[child].score <= s[2 * hole + 2].score
    ensures Ordered(s[hole := s[child]])
  {
    var t := s[hole := s[child]];
    assert Parent(child) == hole && s[hole].score <= s[child].score;
    forall i | 0 < i < |s| ensures t[Parent(i)].score <= t[i].score {
      if Parent(i) == hole {
        assert i == 2 * hole + 1 || i == 2 * hole + 2;
      }
    }
  }

  /** The last node goes into a hole before it: what is left is in order up to that node. */
  lemma LastIntoHole(s: seq<HeapNode>, hole: nat, top: HeapNode)
    requires Ordered(s) && hole < |s| - 1 && |s| <= 2 * hole + 1
    ensures var n := |s| - 1; var w := s[..n][hole := s[n]];
      && OrderedBut(w, hole) && Bridged(w, hole)
      && Adds(s[hole := top], w, top)
  {
    hide Adds;
    MovedOut(s, hole, top);
  }

  lemma MovedOut(s: seq<HeapNode>, hole: nat, top: HeapNode)
    requires hole < |s| - 1
    ensures var n := |s| - 1; Adds(s[hole := top], s[..n][hole := s[n]], top)
  {
    hide Permutes, Adds;
    var w := s[..|s| - 1][hole := s[|s| - 1]];
    var v := s[hole := top];
    SwappedLast(s, hole, top, v, w);
    OneAppended(w, top);
    AddsTo(v, w + [top], w, top);
  }

  lemma AddsTo(a: seq<HeapNode>, b: seq<HeapNode>, c: seq<HeapNode>, x: HeapNode)
    requires Permutes(a, b) && Adds(b, c, x)
    ensures Adds(a, c, x)
  {
  }

  lemma SwappedLast(s: seq<HeapNode>, hole: nat, top: HeapNode, v: seq<HeapNode>, w: seq<HeapNode>)
    requires hole < |s| - 1 && v == s[hole := top] && w == s[..|s| - 1][hole := s[|s| - 1]]
    ensures Permutes(v, w + [top])
  {
    hide Permutes;
    var t := w + [top];
    Moved(t, hole, |w|);
    assert t[hole := t[|w|]][|w| := t[hole]] == v;
  }

  lemma OneAppended(w: seq<HeapNode>, top: HeapNode)
    ensures Adds(w + [top], w, top)
  {
  }

  /** The last slot itself is the hole: its copy of the parent is dropped. */
  lemma HoleIsLast(s: seq<HeapNode>, top: HeapNode)
    requires Ordered(s) && 0 < |s|
    ensures var n := |s| - 1;
      && OrderedBut(s, n) && Bridged(s, n) && Ordered(s[..n])
      && (n > 0 ==> s[Parent(n)].score <= s[n].score)
      && Adds(s[n := top], s[..n], top)
  {
    var n := |s| - 1;
    assert s[n := top] == s[..n] + [top];
  }

  class Heap {
    const data: array<HeapNode>
    var size: nat

    ghost predicate Valid()
      reads this, data
    {
      size <= data.Length && Ordered(data[..size])
    }

    ghost function Contents(): multiset<HeapNode>
      requires size <= data.Length
      reads this, data
    {
      multiset(data[..size])
    }

    constructor (capacity: nat)
      ensures Valid() && Contents() == multiset{} && fresh(data) && data.Length == capacity
    {
      data := new HeapNode[capacity](_ => HeapNode(0, 0));
      size := 0;
    }

    method Clear()
      modifies this`size
      ensures Valid() && Contents() == multiset{} && size == 0
    {
      size := 0;
    }

    method Top() returns (top: HeapNode)
      requires Valid() && size > 0
      ensures top in Contents() && top == data[0]
      ensures forall e :: e in Contents() ==> top.score <= e.score
    {
      top := data[0];
      assert data[..size][0] == top;
      forall e | e in Contents() ensures top.score <= e.score {
        var i :| 0 <= i < size && data[..size][i] == e;
        RootIsLeast(data[..size], i);
      }
    }

    /** The nodes outside the first `count` are as they were. */
    twostate predicate RestUnchanged(count: nat)
      reads data
    {
      forall i :: count <= i < data.Length ==> data[i] == old(data[i])
    }

    /** Moves the node at `start` up within the first `count` nodes until its parent does not score more. */
    method SiftUp(start: nat, ghost count: nat)
      requires start < count <= data.Length
      requires OrderedBut(data[..count], start) && Bridged(data[..count], start)
      modifies data
      ensures Ordered(data[..count])
      ensures Permutes(data[..count], old(data[..count]))
      ensures RestUnchanged(count)
      ensures start > 0 && old(data[Parent(start)].score <= data[start].score) ==> RestUnchanged(0)
    {
      hide OrderedBut, Bridged, Ordered, Permutes, Swapped;
      var pos := start;
      var val := data[pos];
      ghost var v := data[..count];
      ghost var v0 := v;
      PermutesSelf(v);
      while pos != 0
        invariant pos < count == |v| && v[pos] == val
        invariant forall i :: 0 <= i < count && i != pos ==> data[i] == v[i]
        invariant OrderedBut(v, pos) && Bridged(v, pos) && Permutes(v, v0)
        invariant RestUnchanged(count)
        invariant pos <= start && (pos == start ==> RestUnchanged(0))
        invariant pos < start ==> old(data[Parent(start)].score > data[start].score)
      {
        var parent := (pos - 1) / 2;
        if data[parent].score > val.score {
          SwapUp(v, pos);
          PermutesTrans(Swapped(v, pos, parent), v, v0);
          v := Swapped(v, pos, parent);
          data[pos] := data[parent];
          pos := parent;
        } else {
          break;
        }
      }
      Settled(v, pos);
      data[pos] := val;
      assert data[..count] == v;
    }

    /**
     * Moves lesser children up from the root until a leaf is the hole. The hole keeps a copy of its
     * parent, so the order holds throughout, and putting the old root into it restores the contents.
     */
    method SiftDown(count: nat) returns (hole: nat)
      requires 0 < count <= data.Length && Ordered(data[..count])
      modifies data
      ensures hole < count && count <= 2 * hole + 1
      ensures Ordered(data[..count])
      ensures Permutes(data[..count][hole := old(data[0])], old(data[..count]))
      ensures RestUnchanged(count)
    {
      hide Ordered, Permutes, Parent;
      ghost var top := data[0];
      ghost var v := data[..count];
      ghost var v0 := v;
      hole := 0;
      assert v[0 := top] == v;
      PermutesSelf(v);
      while true
        invariant hole < count == |v|
        invariant forall i :: 0 <= i < count ==> data[i] == v[i]
        invariant Ordered(v) && Permutes(v[hole := top], v0)
        invariant RestUnchanged(count)
        decreases count - hole
      {
        var left := hole * 2 + 1;
        var right := hole * 2 + 2;
        if left >= count {
          break;
        }
        var larger := if right < count && data[left].score > data[right].score then right else left;
        FillDown(v, hole, larger, top);
        PermutesTrans(v[hole := v[larger]][larger := top], v[hole := top], v0);
        v := v[hole := v[larger]];
        data[hole] := data[larger];
        hole := larger;
        if right >= count {
          break;
        }
      }
      assert data[..count] == v;
    }

    /** Bottom-up pop_heap followed by pop_back. The hole may be the last slot itself. */
    method Pop()
      requires Valid() && size > 0
      modifies this`size, data
      ensures Valid() && size == old(size) - 1
      ensures Contents() == old(Contents()) - multiset{old(data[0])}
    {
      hide Ordered, OrderedBut, Bridged, Permutes, Adds;
      ghost var s0 := data[..size];
      var top := data[0];
      var last := size - 1;
      var hole := SiftDown(size);
      RefillHole(hole, last, top, s0);
      ghost var s := data[..last];
      data[last] := top;
      assert data[..last] == s;
      size := last;
      AddedNode(s0, s, top);
    }

    /** Puts the last node into the hole and lets it rise. */
    method RefillHole(hole: nat, last: nat, top: HeapNode, ghost s0: seq<HeapNode>)
      requires hole <= last < data.Length && last + 1 <= 2 * hole + 1
      requires Ordered(data[..last + 1]) && Permutes(data[..last + 1][hole := top], s0)
      modifies data
      ensures Ordered(data[..last]) && Adds(s0, data[..last], top)
    {
      hide Ordered, OrderedBut, Bridged, Permutes, Adds;
      ghost var s := data[..last + 1];
      data[hole] := data[last];
      if hole < last {
        LastIntoHole(s, hole, top);
        ghost var w := data[..last];
        assert w == s[..last][hole := s[last]];
        SiftUp(hole, last);
        PermutesBack(s[hole := top], s0);
        PermutesBack(data[..last], w);
        AddsTrans(s0, s[hole := top], w, data[..last], top);
      } else {
        HoleIsLast(s, top);
        assert data[..last + 1] == s;
        SiftUp(hole, last + 1);
        assert data[..last] == s[..last];
        PermutesBack(s[hole := top], s0);
        PermutesSelf(s[..last]);
        AddsTrans(s0, s[hole := top], s[..last], s[..last], top);
      }
    }

    /** emplace_back and push_heap. A full heap rejects the node before it changes. */
    method Push(node: HeapNode) returns (ok: bool)
      requires Valid()
      modifies this`size, data
      ensures Valid() && ok == (old(size) < data.Length)
      ensures ok ==> Contents() == old(Contents()) + multiset{node} && size == old(size) + 1
      ensures !ok ==> Contents() == old(Contents()) && size == old(size)
    {
      if size >= data.Length {
        return false;
      }
      ghost var s := data[..size];
      data[size] := node;
      size := size + 1;
      assert data[..size] == s + [node];
      SiftUp(size - 1, size);
      return true;
    }
  }
}
