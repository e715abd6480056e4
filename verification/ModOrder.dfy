/** The order in which mods are loaded: by specifier, as far as dependencies allow. */
module ModOrder {
  import opened Wrappers
  import opened Sequences
  import opened Strings
  import opened Mods

  predicate Precedes(mods: seq<Specifier>, y: Specifier, x: Specifier) {
    exists j, i :: 0 <= j < i < |mods| && mods[j] == y && mods[i] == x
  }

  /** Something listed, not after `x`, leads to `y`. */
  ghost predicate LedUpTo(graph: Graph, list: seq<Specifier>, x: Specifier, y: Specifier) {
    exists z :: z in list && AtMost(z, x) && Reachable(graph, [z], y)
  }

  /** Something listed before `x` does. */
  ghost predicate LedBefore(graph: Graph, list: seq<Specifier>, x: Specifier, y: Specifier) {
    exists z :: z in list && StringLess(z, x) && Reachable(graph, [z], y)
  }

  // What a list leads to

  lemma ReachableFrom(graph: Graph, list: seq<Specifier>, more: seq<Specifier>, y: Specifier)
    requires Reachable(graph, list, y) && forall z :: z in list ==> z in more
    ensures Reachable(graph, more, y)
  {
    var chain :| IsChain(graph, list, chain) && chain[|chain| - 1] == y;
    assert IsChain(graph, more, chain);
  }

  lemma ReachableFromOne(graph: Graph, list: seq<Specifier>, y: Specifier) returns (z: Specifier)
    requires Reachable(graph, list, y)
    ensures z in list && Reachable(graph, [z], y)
  {
    var chain :| IsChain(graph, list, chain) && chain[|chain| - 1] == y;
    z := chain[0];
    assert IsChain(graph, [z], chain);
  }

  lemma ReachableBehind(graph: Graph, x: Specifier, y: Specifier)
    requires Reachable(graph, Dependencies(graph, x), y)
    ensures Reachable(graph, [x], y)
  {
    var chain :| IsChain(graph, Dependencies(graph, x), chain) && chain[|chain| - 1] == y;
    var longer := [x] + chain;
    forall i | 0 <= i < |longer| - 1 ensures longer[i + 1] in Dependencies(graph, longer[i]) {
      if i > 0 { assert chain[i] in Dependencies(graph, chain[i - 1]); }
    }
    assert IsChain(graph, [x], longer) && longer[|longer| - 1] == y;
  }

  lemma ReachesItself(graph: Graph, x: Specifier)
    ensures Reachable(graph, [x], x)
  {
    assert IsChain(graph, [x], [x]);
  }

  // What loading a list adds

  /** `r` goes on from `mods` with new mods that the list leads to, none of them on the stack. */
  ghost predicate Adds(graph: Graph, list: seq<Specifier>, mods: seq<Specifier>, stack: seq<Specifier>,
      r: seq<Specifier>) {
    && mods <= r && (Distinct(mods) ==> Distinct(r))
    && (forall x :: x in list ==> x in r)
    && forall y :: y in r && y !in mods ==> y !in stack && Reachable(graph, list, y)
  }

  lemma {:induction false} OneAdds(graph: Graph, x: Specifier, mods: seq<Specifier>, stack: seq<Specifier>)
    requires LoadedOne(graph, x, mods, stack).Some?
    ensures Adds(graph, [x], mods, stack, LoadedOne(graph, x, mods, stack).value)
    decreases Unstacked(graph, stack), 0
  {
    hide Reachable, Dependencies, Sorted, Unstacked, Distinct;
    if x !in mods {
      StackingLeavesFewer(graph, stack, x);
      var list := Sorted(Dependencies(graph, x));
      AllAdd(graph, list, mods, stack + [x]);
      var more := LoadedAll(graph, list, mods, stack + [x]).value;
      SortedHasSame(Dependencies(graph, x));
      forall y | y in more && y !in mods ensures y !in stack && y != x && Reachable(graph, [x], y) {
        assert y !in stack + [x];
        ReachableFrom(graph, list, Dependencies(graph, x), y);
        ReachableBehind(graph, x, y);
      }
      ReachesItself(graph, x);
      if Distinct(mods) { PushedIsDistinct(more, x); }
    }
  }

  lemma {:induction false} AllAdd(graph: Graph, list: seq<Specifier>, mods: seq<Specifier>, stack: seq<Specifier>)
    requires LoadedAll(graph, list, mods, stack).Some?
    ensures Adds(graph, list, mods, stack, LoadedAll(graph, list, mods, stack).value)
    decreases Unstacked(graph, stack), |list| + 1
  {
    hide Reachable, LoadedOne, Distinct;
    if |list| > 0 {
      OneAdds(graph, list[0], mods, stack);
      var more := LoadedOne(graph, list[0], mods, stack).value;
      AllAdd(graph, list[1..], more, stack);
      var r := LoadedAll(graph, list[1..], more, stack).value;
      assert list == [list[0]] + list[1..];
      forall y | y in r && y !in mods ensures y !in stack && Reachable(graph, list, y) {
        ReachableFrom(graph, if y in more then [list[0]] else list[1..], list, y);
      }
    }
  }

  lemma SortedHasSame(list: seq<Specifier>)
    ensures |Sorted(list)| == |list| && forall x :: x in Sorted(list) <==> x in list
  {
    SortedKeeps(list);
    forall x ensures x in Sorted(list) <==> x in list {
      SameElements(Sorted(list), list, x);
    }
    assert |multiset(Sorted(list))| == |multiset(list)|;
  }

  /** Loading a list, up to some place in it and on from there. */
  lemma {:induction false} LoadedInTwo(graph: Graph, list: seq<Specifier>, n: nat, mods: seq<Specifier>,
      stack: seq<Specifier>)
    requires n <= |list| && LoadedAll(graph, list, mods, stack).Some?
    ensures var front := LoadedAll(graph, list[..n], mods, stack);
      front.Some? && LoadedAll(graph, list, mods, stack) == LoadedAll(graph, list[n..], front.value, stack)
    decreases n
  {
    hide LoadedOne;
    if n == 0 {
      assert list[0..] == list;
    } else {
      var more := LoadedOne(graph, list[0], mods, stack).value;
      LoadedInTwo(graph, list[1..], n - 1, more, stack);
      assert list[1..][..n - 1] == list[..n][1..] && list[1..][n - 1..] == list[n..];
    }
  }

  /** What comes before its turn is led to by something whose turn had come. */
  lemma OutOfTurn(graph: Graph, list: seq<Specifier>, mods: seq<Specifier>, stack: seq<Specifier>, i: nat, y: Specifier)
    requires LoadedAll(graph, list, mods, stack).Some? && Distinct(mods) && i < |list|
    requires y !in mods && Precedes(LoadedAll(graph, list, mods, stack).value, y, list[i])
    ensures Reachable(graph, list[..i + 1], y)
  {
    hide Reachable, LoadedAll;
    var r := LoadedAll(graph, list, mods, stack).value;
    LoadedInTwo(graph, list, i + 1, mods, stack);
    var front := LoadedAll(graph, list[..i + 1], mods, stack).value;
    AllAdd(graph, list[..i + 1], mods, stack);
    AllAdd(graph, list[i + 1..], front, stack);
    assert list[..i + 1][i] == list[i] && list[i] in list[..i + 1];
    var j, k :| 0 <= j < k < |r| && r[j] == y && r[k] == list[i];
    var n :| 0 <= n < |front| && front[n] == list[i];
    assert front[j] == y;
  }

  // Ascending lists

  predicate Ascends(s: seq<Specifier>) {
    forall i, j :: 0 <= i < j < |s| ==> AtMost(s[i], s[j])
  }

  lemma {:induction false} InsertAscends(x: Specifier, s: seq<Specifier>)
    requires Ascends(s)
    ensures Ascends(Insert(x, s))
  {
    hide AtMost;
    if |s| > 0 {
      AtMostIsOrder(x, s[0], s[0]);
      if AtMost(x, s[0]) {
        forall j | 0 <= j < |s| ensures AtMost(x, s[j]) {
          AtMostIsOrder(x, s[0], s[j]);
        }
      } else {
        InsertAscends(x, s[1..]);
        InsertKeeps(x, s[1..]);
        var r := Insert(x, s[1..]);
        forall y | y in r ensures AtMost(s[0], y) {
          assert y in multiset(r);
          assert y in s[1..] || y == x;
        }
      }
    }
  }

  lemma {:induction false} SortedAscends(s: seq<Specifier>)
    ensures Ascends(Sorted(s))
  {
    hide Insert, Ascends;
    if |s| == 0 {
      NoneAscend();
    } else {
      SortedAscends(s[1..]);
      InsertAscends(s[0], Sorted(s[1..]));
    }
  }

  lemma NoneAscend()
    ensures Ascends([])
  {
  }

  /** In its order, what comes before its turn is led to by something that does not come later. */
  lemma OutOfOrder(graph: Graph, list: seq<Specifier>, mods: seq<Specifier>, stack: seq<Specifier>, x: Specifier,
      y: Specifier)
    requires LoadedAll(graph, Sorted(list), mods, stack).Some? && Distinct(mods) && x in list && y !in mods
    requires Precedes(LoadedAll(graph, Sorted(list), mods, stack).value, y, x)
    ensures LedUpTo(graph, list, x, y)
  {
    hide Reachable, LoadedAll, Sorted, AtMost, Distinct, Precedes;
    SortedHasSame(list);
    SortedAscends(list);
    var sorted := Sorted(list);
    var i :| 0 <= i < |sorted| && sorted[i] == x;
    OutOfTurn(graph, sorted, mods, stack, i, y);
    var z := ReachableFromOne(graph, sorted[..i + 1], y);
    var k :| 0 <= k < i + 1 && sorted[k] == z;
    AtMostIsOrder(x, x, x);
    assert z in sorted && AtMost(z, x);
  }

  /** A root loaded ahead of a lesser one is in reach of a root that is not greater than that. */
  lemma RootsInOrder(graph: Graph, roots: seq<Specifier>, x: Specifier, y: Specifier)
    requires Listing(graph, roots).Some? && x in roots && y in roots && StringLess(x, y)
    requires Precedes(Listing(graph, roots).value, y, x)
    ensures LedUpTo(graph, roots, x, y)
  {
    hide LoadedAll, Sorted, AtMost, Reachable, Precedes;
    OutOfOrder(graph, roots, [], [], x, y);
  }

  /** The order in which roots are given does not matter: the same mods are listed, in the same order. */
  lemma ListingIgnoresOrder(graph: Graph, a: seq<Specifier>, b: seq<Specifier>)
    requires multiset(a) == multiset(b)
    ensures Listing(graph, a) == Listing(graph, b)
  {
    hide Sorted, LoadedAll;
    SortedIgnoresOrder(a, b);
  }

  // Dependencies

  /** What the mod at a place of a chain is listed with. */
  function Siblings(graph: Graph, roots: seq<Specifier>, chain: seq<Specifier>, t: nat): seq<Specifier>
    requires t < |chain|
  {
    if t == 0 then roots else Dependencies(graph, chain[t - 1])
  }

  /** Before the mods of the chain were begun, `y` was loaded: something listed before one of them leads to it. */
  ghost predicate LoadedAhead(graph: Graph, roots: seq<Specifier>, chain: seq<Specifier>, y: Specifier) {
    exists t :: 0 <= t < |chain| && LedBefore(graph, Siblings(graph, roots, chain, t), chain[t], y)
  }

  /** A dependency loaded ahead of a lesser one has a reason. */
  ghost predicate HasReason(graph: Graph, roots: seq<Specifier>, chain: seq<Specifier>, m: Specifier, x: Specifier,
      y: Specifier) {
    LedUpTo(graph, Dependencies(graph, m), x, y) || LoadedAhead(graph, roots, chain, y)
  }

  ghost predicate ChainOrders(graph: Graph, roots: seq<Specifier>, mods: seq<Specifier>, m: Specifier,
      chain: seq<Specifier>) {
    && IsChain(graph, roots, chain) && chain[|chain| - 1] == m
    && forall x, y :: x in Dependencies(graph, m) && y in Dependencies(graph, m) && StringLess(x, y) && Precedes(mods, y, x) ==>
         HasReason(graph, roots, chain, m, x, y)
  }

  /** The dependencies of a mod are in order, but for those loaded ahead of it or in reach of one that is not greater. */
  ghost predicate InOrder(graph: Graph, roots: seq<Specifier>, mods: seq<Specifier>, m: Specifier) {
    exists chain :: ChainOrders(graph, roots, mods, m, chain)
  }

  ghost predicate AllInOrder(graph: Graph, roots: seq<Specifier>, mods: seq<Specifier>) {
    && Distinct(mods)
    && forall m :: m in mods ==> InOrder(graph, roots, mods, m) && forall d :: d in Dependencies(graph, m) ==> d in mods
  }

  lemma StaysInOrder(graph: Graph, roots: seq<Specifier>, mods: seq<Specifier>, more: seq<Specifier>, m: Specifier)
    requires AllInOrder(graph, roots, mods) && m in mods && mods <= more && Distinct(more)
    ensures InOrder(graph, roots, more, m)
  {
    hide HasReason, IsChain, Dependencies;
    var chain :| ChainOrders(graph, roots, mods, m, chain);
    forall x, y | x in Dependencies(graph, m) && y in Dependencies(graph, m) && StringLess(x, y) && Precedes(more, y, x)
      ensures HasReason(graph, roots, chain, m, x, y)
    {
      StillPrecedes(mods, more, y, x);
    }
    assert ChainOrders(graph, roots, more, m, chain);
  }

  lemma StillPrecedes(mods: seq<Specifier>, more: seq<Specifier>, y: Specifier, x: Specifier)
    requires mods <= more && Distinct(more) && x in mods && Precedes(more, y, x)
    ensures Precedes(mods, y, x)
  {
    var j, i :| 0 <= j < i < |more| && more[j] == y && more[i] == x;
    var k :| 0 <= k < |mods| && mods[k] == x;
    assert more[k] == x && mods[j] == y;
  }

  lemma AheadOfMore(graph: Graph, roots: seq<Specifier>, stack: seq<Specifier>, x: Specifier, y: Specifier)
    requires LoadedAhead(graph, roots, stack, y)
    ensures LoadedAhead(graph, roots, stack + [x], y)
  {
    hide LedBefore;
    var t :| 0 <= t < |stack| && LedBefore(graph, Siblings(graph, roots, stack, t), stack[t], y);
    assert Siblings(graph, roots, stack + [x], t) == Siblings(graph, roots, stack, t) && (stack + [x])[t] == stack[t];
  }

  lemma {:induction false} OneInOrder(graph: Graph, roots: seq<Specifier>, x: Specifier, mods: seq<Specifier>,
      stack: seq<Specifier>)
    requires AllInOrder(graph, roots, mods) && (stack == [] || IsChain(graph, roots, stack)) && MayFollow(graph, roots, stack, x)
    requires x !in mods ==> forall y :: y in mods ==> LoadedAhead(graph, roots, stack + [x], y)
    requires LoadedOne(graph, x, mods, stack).Some?
    ensures AllInOrder(graph, roots, LoadedOne(graph, x, mods, stack).value)
    decreases Unstacked(graph, stack), 0
  {
    hide Reachable, Dependencies, Sorted, Unstacked, Distinct, LoadedAhead, InOrder, IsChain, MayFollow, LoadedAll, AllInOrder;
    if x !in mods {
      var chain, list := stack + [x], Dependencies(graph, x);
      StackingLeavesFewer(graph, stack, x);
      ChainExtends(graph, roots, stack, x);
      DependenciesFollow(graph, roots, stack, x);
      NoneYet(graph, Sorted(list), mods, chain);
      ListInOrder(graph, roots, list, 0, mods, mods, chain);
      var more := LoadedAll(graph, Sorted(list), mods, chain).value;
      NewInOrder(graph, roots, x, mods, stack, more);
    }
  }

  lemma NoneYet(graph: Graph, list: seq<Specifier>, mods: seq<Specifier>, stack: seq<Specifier>)
    ensures list[0..] == list && LoadedAll(graph, list[..0], mods, stack) == Some(mods)
  {
  }

  lemma NewInOrder(graph: Graph, roots: seq<Specifier>, x: Specifier, mods: seq<Specifier>, stack: seq<Specifier>,
      more: seq<Specifier>)
    requires AllInOrder(graph, roots, mods) && IsChain(graph, roots, stack + [x]) && x !in mods
    requires forall y :: y in mods ==> LoadedAhead(graph, roots, stack + [x], y)
    requires LoadedAll(graph, Sorted(Dependencies(graph, x)), mods, stack + [x]) == Some(more)
    requires AllInOrder(graph, roots, more)
    ensures AllInOrder(graph, roots, more + [x])
  {
    hide Reachable, Dependencies, Sorted, LoadedAhead, IsChain, LoadedAll, LedUpTo, Precedes, Distinct, InOrder;
    var chain, list, r := stack + [x], Dependencies(graph, x), more + [x];
    AllAdd(graph, Sorted(list), mods, chain);
    SortedHasSame(list);
    assert x in chain;
    PushedIsDistinct(more, x);
    forall a, b | a in list && b in list && StringLess(a, b) && Precedes(r, b, a) ensures HasReason(graph, roots, chain, x, a, b) {
      StillPrecedes(more, r, b, a);
      if b !in mods {
        OutOfOrder(graph, list, mods, chain, a, b);
      }
    }
    assert ChainOrders(graph, roots, r, x, chain);
    forall m | m in r ensures InOrder(graph, roots, r, m) && forall d :: d in Dependencies(graph, m) ==> d in r {
      if m in more {
        StaysInOrder(graph, roots, more, r, m);
      } else {
        IsInOrder(graph, roots, r, m, chain);
      }
    }
  }

  lemma IsInOrder(graph: Graph, roots: seq<Specifier>, mods: seq<Specifier>, m: Specifier, chain: seq<Specifier>)
    requires ChainOrders(graph, roots, mods, m, chain)
    ensures InOrder(graph, roots, mods, m)
  {
  }

  /** What was loaded up to some place of a list was loaded ahead of what comes there. */
  lemma AheadOfNext(graph: Graph, roots: seq<Specifier>, list: seq<Specifier>, i: nat, mods0: seq<Specifier>,
      mods: seq<Specifier>,
      stack: seq<Specifier>, y: Specifier)
    requires i < |Sorted(list)| && list == Siblings(graph, roots, stack + [Sorted(list)[i]], |stack|)
    requires LoadedAll(graph, Sorted(list)[..i], mods0, stack) == Some(mods) && Sorted(list)[i] !in mods && y in mods
    requires y in mods0 ==> LoadedAhead(graph, roots, stack, y)
    ensures LoadedAhead(graph, roots, stack + [Sorted(list)[i]], y)
  {
    hide Reachable, Sorted, LoadedAll, AtMost, Distinct, LoadedAhead, Siblings;
    var sorted := Sorted(list);
    var x := sorted[i];
    if y in mods0 {
      AheadOfMore(graph, roots, stack, x, y);
    } else {
      AllAdd(graph, sorted[..i], mods0, stack);
      var z := ReachableFromOne(graph, sorted[..i], y);
      var k :| 0 <= k < i && sorted[k] == z;
      SortedHasSame(list);
      SortedAscends(list);
      assert sorted[..i][k] == z && z in mods && AtMost(z, x);
      AtMostIsLess(z, x);
      assert LedBefore(graph, list, x, y);
      IsLoadedAhead(graph, roots, stack + [x], |stack|, y);
    }
  }

  lemma AtMostIsLess(z: Specifier, x: Specifier)
    requires AtMost(z, x) && z != x
    ensures StringLess(z, x)
  {
    StringLessIsTotal(z, x);
  }

  lemma IsLoadedAhead(graph: Graph, roots: seq<Specifier>, chain: seq<Specifier>, t: nat, y: Specifier)
    requires t < |chain| && LedBefore(graph, Siblings(graph, roots, chain, t), chain[t], y)
    ensures LoadedAhead(graph, roots, chain, y)
  {
  }

  lemma {:induction false} ListInOrder(graph: Graph, roots: seq<Specifier>, list: seq<Specifier>, i: nat,
      mods0: seq<Specifier>,
      mods: seq<Specifier>, stack: seq<Specifier>)
    requires AllInOrder(graph, roots, mods) && (stack == [] || IsChain(graph, roots, stack))
    requires list == (if stack == [] then roots else Dependencies(graph, stack[|stack| - 1]))
    requires forall y :: y in mods0 ==> LoadedAhead(graph, roots, stack, y)
    requires i <= |Sorted(list)| && LoadedAll(graph, Sorted(list)[..i], mods0, stack) == Some(mods)
    requires LoadedAll(graph, Sorted(list)[i..], mods, stack).Some?
    ensures AllInOrder(graph, roots, LoadedAll(graph, Sorted(list)[i..], mods, stack).value)
    decreases Unstacked(graph, stack), |Sorted(list)| - i + 1
  {
    hide Reachable, Dependencies, Sorted, Unstacked, Distinct, LoadedAhead, InOrder, IsChain, LoadedAll, LoadedOne, AllInOrder;
    var sorted := Sorted(list);
    if i == |sorted| {
      LoadedNothing(graph, sorted, mods, stack);
    } else {
      var x := sorted[i];
      SortedHasSame(list);
      LoadedStep(graph, sorted, i, mods, stack);
      var more := LoadedOne(graph, x, mods, stack).value;
      if x !in mods {
        forall y | y in mods ensures LoadedAhead(graph, roots, stack + [x], y) {
          AheadOfNext(graph, roots, list, i, mods0, mods, stack, y);
        }
      }
      OneInOrder(graph, roots, x, mods, stack);
      OneMoreLoaded(graph, sorted, i, mods0, mods, stack);
      ListInOrder(graph, roots, list, i + 1, mods0, more, stack);
    }
  }

  lemma {:induction false} OneMoreLoaded(graph: Graph, list: seq<Specifier>, i: nat, mods0: seq<Specifier>,
      mods: seq<Specifier>, stack: seq<Specifier>)
    requires i < |list| && LoadedAll(graph, list[..i], mods0, stack) == Some(mods)
    ensures LoadedAll(graph, list[..i + 1], mods0, stack) == LoadedOne(graph, list[i], mods, stack)
    decreases i
  {
    hide LoadedOne;
    if i == 0 {
      assert list[..1] == [list[0]] && [list[0]][1..] == [];
    } else {
      var more := LoadedOne(graph, list[0], mods0, stack).value;
      assert list[..i][1..] == list[1..][..i - 1] && list[..i + 1][1..] == list[1..][..i];
      OneMoreLoaded(graph, list[1..], i - 1, more, mods, stack);
    }
  }

  /** Every mod listed has its dependencies in order. */
  lemma DependenciesInOrder(graph: Graph, roots: seq<Specifier>)
    requires Listing(graph, roots).Some?
    ensures forall m :: m in Listing(graph, roots).value ==> InOrder(graph, roots, Listing(graph, roots).value, m)
  {
    hide LoadedAll, Sorted, InOrder;
    NoneYet(graph, Sorted(roots), [], []);
    ListInOrder(graph, roots, roots, 0, [], [], []);
  }
}
