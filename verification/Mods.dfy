/** Loading mods so that each comes after the mods it depends on. */
module Mods {
  import opened Wrappers
  import opened Sequences
  import opened Strings

  type Specifier = string

  datatype Manifest = Manifest(dependencies: Option<seq<Specifier>>)

  datatype LoadError =
    | NotFound(specifier: Specifier)
    | CyclicDependency(stack: seq<Specifier>, specifier: Specifier)

  type Graph = map<Specifier, Manifest>

  function Dependencies(graph: Graph, s: Specifier): seq<Specifier> {
    if s in graph then
      match graph[s].dependencies case Some(list) => list case None => []
    else []
  }

  // The order of specifiers

  predicate AtMost(a: Specifier, b: Specifier) {
    !StringLess(b, a)
  }

  function Insert(x: Specifier, s: seq<Specifier>): seq<Specifier> {
    if |s| == 0 || AtMost(x, s[0]) then [x] + s else [s[0]] + Insert(x, s[1..])
  }

  /** [ ...specifiers ].sort() */
  function Sorted(s: seq<Specifier>): seq<Specifier> {
    if |s| == 0 then [] else Insert(s[0], Sorted(s[1..]))
  }

  lemma {:induction false} InsertKeeps(x: Specifier, s: seq<Specifier>)
    ensures multiset(Insert(x, s)) == multiset(s) + multiset{x}
  {
    if !(|s| == 0 || AtMost(x, s[0])) {
      InsertKeeps(x, s[1..]);
      assert s == [s[0]] + s[1..];
    }
  }

  lemma {:induction false} SortedKeeps(s: seq<Specifier>)
    ensures multiset(Sorted(s)) == multiset(s)
  {
    if |s| > 0 {
      SortedKeeps(s[1..]);
      InsertKeeps(s[0], Sorted(s[1..]));
      assert s == [s[0]] + s[1..];
    }
  }

  lemma AtMostIsOrder(a: Specifier, b: Specifier, c: Specifier)
    ensures AtMost(a, b) || AtMost(b, a)
    ensures AtMost(a, b) && AtMost(b, a) ==> a == b
    ensures AtMost(a, b) && AtMost(b, c) ==> AtMost(a, c)
  {
    StringLessIsTotal(a, b);
    StringLessIsTotal(b, c);
    StringLessIsTotal(a, c);
    if StringLess(c, a) && StringLess(a, b) { StringLessIsTransitive(c, a, b); }
    if StringLess(b, c) && StringLess(c, a) { StringLessIsTransitive(b, c, a); }
  }

  lemma {:induction false} InsertsCommute(x: Specifier, y: Specifier, s: seq<Specifier>)
    ensures Insert(x, Insert(y, s)) == Insert(y, Insert(x, s))
  {
    hide AtMost;
    AtMostIsOrder(x, y, x);
    if |s| > 0 {
      AtMostIsOrder(x, y, s[0]);
      AtMostIsOrder(y, x, s[0]);
      InsertsCommute(x, y, s[1..]);
    }
  }

  lemma {:induction false} SortedMoves(s: seq<Specifier>, i: nat)
    requires i < |s|
    ensures Sorted(s) == Insert(s[i], Sorted(s[..i] + s[i + 1..]))
  {
    hide Insert;
    var rest := s[..i] + s[i + 1..];
    if i == 0 {
      assert rest == s[1..];
    } else {
      SortedMoves(s[1..], i - 1);
      assert rest[1..] == s[1..][..i - 1] + s[1..][i..];
      InsertsCommute(s[0], s[i], Sorted(rest[1..]));
    }
  }

  /** The order in which specifiers are listed does not matter. */
  lemma {:induction false} SortedIgnoresOrder(a: seq<Specifier>, b: seq<Specifier>)
    requires multiset(a) == multiset(b)
    ensures Sorted(a) == Sorted(b)
  {
    hide Insert;
    if |a| == 0 {
      assert |multiset(b)| == |multiset(a)| == 0;
    } else {
      SameElements(a, b, a[0]);
      var i :| 0 <= i < |b| && b[i] == a[0];
      RemovingSame(a, 0, b, i);
      assert a[..0] + a[1..] == a[1..];
      SortedIgnoresOrder(a[1..], b[..i] + b[i + 1..]);
      SortedMoves(b, i);
    }
  }

  // What is reachable

  /** Each specifier but the first is a dependency of the one before. */
  predicate IsChain(graph: Graph, roots: seq<Specifier>, chain: seq<Specifier>) {
    && |chain| > 0 && chain[0] in roots
    && forall i :: 0 <= i < |chain| - 1 ==> chain[i + 1] in Dependencies(graph, chain[i])
  }

  predicate Distinct(s: seq<Specifier>) {
    forall i, j :: 0 <= i < j < |s| ==> s[i] != s[j]
  }

  ghost predicate Reachable(graph: Graph, roots: seq<Specifier>, x: Specifier) {
    exists chain :: IsChain(graph, roots, chain) && chain[|chain| - 1] == x
  }

  ghost predicate CycleReachable(graph: Graph, roots: seq<Specifier>) {
    exists chain :: IsChain(graph, roots, chain) && !Distinct(chain)
  }

  ghost predicate AllFound(graph: Graph, roots: seq<Specifier>) {
    forall x :: Reachable(graph, roots, x) ==> x in graph
  }

  /** Everything that a mod depends on comes before it. */
  predicate DependenciesFirst(graph: Graph, mods: seq<Specifier>) {
    forall k :: 0 <= k < |mods| ==> AllBefore(Dependencies(graph, mods[k]), mods[..k])
  }

  predicate AllBefore(dependencies: seq<Specifier>, mods: seq<Specifier>) {
    forall d :: d in dependencies ==> d in mods
  }

  /** A chain goes on with what may be loaded next. */
  predicate MayFollow(graph: Graph, roots: seq<Specifier>, stack: seq<Specifier>, x: Specifier) {
    if stack == [] then x in roots else x in Dependencies(graph, stack[|stack| - 1])
  }

  lemma ChainExtends(graph: Graph, roots: seq<Specifier>, stack: seq<Specifier>, x: Specifier)
    requires (stack == [] || IsChain(graph, roots, stack)) && MayFollow(graph, roots, stack, x)
    ensures IsChain(graph, roots, stack + [x]) && Reachable(graph, roots, x)
  {
    var chain := stack + [x];
    assert IsChain(graph, roots, chain) && chain[|chain| - 1] == x;
  }

  // Loading

  ghost function Unstacked(graph: Graph, stack: seq<Specifier>): set<Specifier> {
    graph.Keys - set x | x in stack
  }

  lemma StackingLeavesFewer(graph: Graph, stack: seq<Specifier>, x: Specifier)
    requires x in graph && x !in stack
    ensures Unstacked(graph, stack + [x]) < Unstacked(graph, stack)
  {
    assert x in Unstacked(graph, stack);
    assert x in stack + [x];
  }

  // The list that loading makes

  /** The mods loaded once all specifiers of a list have been, one after another; nothing where one fails. */
  ghost function LoadedAll(graph: Graph, list: seq<Specifier>, mods: seq<Specifier>,
      stack: seq<Specifier>): Option<seq<Specifier>>
    decreases Unstacked(graph, stack), |list| + 1
  {
    if |list| == 0 then Some(mods)
    else
      match LoadedOne(graph, list[0], mods, stack)
      case None => None
      case Some(more) => LoadedAll(graph, list[1..], more, stack)
  }

  /** A new mod comes after the mods loaded for it. */
  ghost function LoadedOne(graph: Graph, x: Specifier, mods: seq<Specifier>,
      stack: seq<Specifier>): Option<seq<Specifier>>
    decreases Unstacked(graph, stack), 0
  {
    if x in mods then Some(mods)
    else if x !in graph || x in stack then None
    else
      StackingLeavesFewer(graph, stack, x);
      match LoadedAll(graph, Sorted(Dependencies(graph, x)), mods, stack + [x])
      case None => None
      case Some(more) => Some(more + [x])
  }

  /** A list with something missing in it fails. */
  lemma {:induction false} MissingFails(graph: Graph, list: seq<Specifier>, mods: seq<Specifier>,
      stack: seq<Specifier>, x: Specifier)
    requires x in list && x !in graph && forall m :: m in mods ==> m in graph
    ensures LoadedAll(graph, list, mods, stack).None?
    decreases |list|
  {
    hide LoadedOne;
    LoadedAreFound(graph, list[0], mods, stack);
    if LoadedOne(graph, list[0], mods, stack).Some? {
      MissingFails(graph, list[1..], LoadedOne(graph, list[0], mods, stack).value, stack, x);
    }
  }

  lemma {:induction false} LoadedAreFound(graph: Graph, x: Specifier, mods: seq<Specifier>, stack: seq<Specifier>)
    requires forall m :: m in mods ==> m in graph
    ensures var r := LoadedOne(graph, x, mods, stack);
      r.Some? ==> x in r.value && forall m :: m in r.value ==> m in graph
    decreases Unstacked(graph, stack), 0
  {
    if x !in mods && x in graph && x !in stack {
      StackingLeavesFewer(graph, stack, x);
      AllLoadedAreFound(graph, Sorted(Dependencies(graph, x)), mods, stack + [x]);
    }
  }

  lemma {:induction false} AllLoadedAreFound(graph: Graph, list: seq<Specifier>, mods: seq<Specifier>,
      stack: seq<Specifier>)
    requires forall m :: m in mods ==> m in graph
    ensures var r := LoadedAll(graph, list, mods, stack); r.Some? ==> forall m :: m in r.value ==> m in graph
    decreases Unstacked(graph, stack), |list| + 1
  {
    hide LoadedOne;
    if |list| > 0 {
      LoadedAreFound(graph, list[0], mods, stack);
      if LoadedOne(graph, list[0], mods, stack).Some? {
        AllLoadedAreFound(graph, list[1..], LoadedOne(graph, list[0], mods, stack).value, stack);
      }
    }
  }

  lemma LoadedStep(graph: Graph, list: seq<Specifier>, i: nat, mods: seq<Specifier>, stack: seq<Specifier>)
    requires i < |list|
    ensures var r := LoadedOne(graph, list[i], mods, stack);
      LoadedAll(graph, list[i..], mods, stack) == if r.None? then None else LoadedAll(graph, list[i + 1..], r.value, stack)
    ensures list[i] in mods ==> LoadedOne(graph, list[i], mods, stack) == Some(mods)
    ensures list[i] !in mods && list[i] in stack ==> LoadedOne(graph, list[i], mods, stack) == None
  {
    assert list[i..][0] == list[i] && list[i..][1..] == list[i + 1..];
  }

  lemma LoadedNothing(graph: Graph, list: seq<Specifier>, mods: seq<Specifier>, stack: seq<Specifier>)
    ensures LoadedAll(graph, list[|list|..], mods, stack) == Some(mods)
  {
  }

  lemma LoadedNew(graph: Graph, x: Specifier, mods: seq<Specifier>, stack: seq<Specifier>)
    requires x in graph && x !in stack && x !in mods
    ensures var r := LoadedAll(graph, Sorted(Dependencies(graph, x)), mods, stack + [x]);
      LoadedOne(graph, x, mods, stack) == if r.None? then None else Some(r.value + [x])
  {
  }

  /** The list that loading makes of roots, in whatever order they are given. */
  ghost function Listing(graph: Graph, roots: seq<Specifier>): Option<seq<Specifier>> {
    LoadedAll(graph, Sorted(roots), [], [])
  }

  /** What follows a new mod is what it depends on. */
  lemma DependenciesFollow(graph: Graph, roots: seq<Specifier>, stack: seq<Specifier>, x: Specifier)
    ensures forall d :: d in Dependencies(graph, x) ==> MayFollow(graph, roots, stack + [x], d)
  {
  }

  /** What every point of loading keeps: mods in order, and a chain of unresolved ones being loaded. */
  ghost predicate IsLoad(graph: Graph, roots: seq<Specifier>, mods: seq<Specifier>, stack: seq<Specifier>,
      resolved: set<Specifier>) {
    && Distinct(mods) && DependenciesFirst(graph, mods)
    && (forall x :: x in resolved <==> x in mods)
    && (forall x :: x in mods ==> x in graph && Reachable(graph, roots, x))
    && Distinct(stack) && (stack == [] || IsChain(graph, roots, stack))
    && forall x :: x in stack ==> x in graph && x !in resolved
  }

  lemma LoadBegins(graph: Graph, roots: seq<Specifier>, mods: seq<Specifier>, stack: seq<Specifier>,
      resolved: set<Specifier>, x: Specifier)
    requires IsLoad(graph, roots, mods, stack, resolved) && x in graph && x !in resolved && x !in stack
    requires IsChain(graph, roots, stack + [x])
    ensures IsLoad(graph, roots, mods, stack + [x], resolved)
  {
    hide DependenciesFirst, Distinct, IsChain, Reachable;
    PushedIsDistinct(stack, x);
  }

  lemma LoadMeans(graph: Graph, roots: seq<Specifier>, mods: seq<Specifier>, stack: seq<Specifier>,
      resolved: set<Specifier>)
    requires IsLoad(graph, roots, mods, stack, resolved)
    ensures Distinct(stack) && (stack == [] || IsChain(graph, roots, stack))
  {
    hide IsChain, Reachable;
  }

  lemma LoadEnds(graph: Graph, roots: seq<Specifier>, mods: seq<Specifier>, stack: seq<Specifier>,
      resolved: set<Specifier>, x: Specifier)
    requires IsLoad(graph, roots, mods, stack + [x], resolved) && (stack == [] || IsChain(graph, roots, stack)) && Distinct(stack)
    requires Reachable(graph, roots, x) && (forall d :: d in Dependencies(graph, x) ==> d in mods) && x !in stack
    ensures IsLoad(graph, roots, mods + [x], stack, resolved + {x})
  {
    hide DependenciesFirst, Distinct, IsChain, Reachable, Dependencies;
    assert x in stack + [x];
    DependenciesCome(graph, mods, x);
    PushedIsDistinct(mods, x);
  }

  class Loader {
    const graph: Graph
    ghost const roots: seq<Specifier>
    var mods: seq<Specifier>
    var stack: seq<Specifier>
    var resolved: set<Specifier>

    ghost predicate Valid()
      reads this
    {
      IsLoad(graph, roots, mods, stack, resolved)
    }

    constructor (graph: Graph, ghost roots: seq<Specifier>)
      ensures Valid() && this.graph == graph && this.roots == roots && stack == [] && mods == []
    {
      this.graph := graph;
      this.roots := roots;
      mods, stack, resolved := [], [], {};
    }

    /** All manifests are imported before the first of them is looked at. */
    method Import(specifiers: seq<Specifier>) returns (error: Option<LoadError>)
      requires Valid() && forall x :: x in specifiers ==> MayFollow(graph, roots, stack, x)
      ensures error.None? ==> forall x :: x in specifiers ==> x in graph
      ensures error.Some? ==> error.value.NotFound? && error.value.specifier !in graph && Reachable(graph, roots, error.value.specifier)
      ensures error.Some? ==> error.value.specifier in specifiers
    {
      hide DependenciesFirst, Distinct, IsChain, Reachable, MayFollow;
      for i := 0 to |specifiers|
        invariant forall j :: 0 <= j < i ==> specifiers[j] in graph
      {
        if specifiers[i] !in graph {
          ChainExtends(graph, roots, stack, specifiers[i]);
          return Some(NotFound(specifiers[i]));
        }
      }
      return None;
    }

    /**
     * load: in the order of specifiers, each after everything that it depends on. The stack is the chain of
     * mods whose dependencies are being loaded.
     */
    method Load(specifiers: seq<Specifier>) returns (error: Option<LoadError>)
      requires Valid() && forall x :: x in specifiers ==> MayFollow(graph, roots, stack, x)
      modifies `mods, `stack, `resolved
      ensures error.None? ==> Valid() && stack == old(stack) && old(mods) <= mods && forall x :: x in specifiers ==> x in mods
      ensures error.Some? ==> Justified(graph, roots, error.value)
      ensures LoadedAll(graph, Sorted(specifiers), old(mods), old(stack)) == if error.None? then Some(mods) else None
      decreases Unstacked(graph, stack), 1
    {
      hide DependenciesFirst, Distinct, IsChain, Reachable, MayFollow, Sorted, Unstacked, LoadedAll, LoadedOne;
      var imports := Sorted(specifiers);
      SortedKeeps(specifiers);
      assert forall x :: x in imports <==> x in multiset(imports);
      assert forall x :: x in specifiers <==> x in multiset(specifiers);
      error := Import(imports);
      if error.Some? {
        MissingFails(graph, imports, mods, stack, error.value.specifier);
        return;
      }
      ghost var mods0 := mods;
      assert imports[0..] == imports;
      for i := 0 to |imports|
        invariant Valid() && stack == old(stack) && old(mods) <= mods
        invariant forall j :: 0 <= j < i ==> imports[j] in mods
        invariant LoadedAll(graph, imports, mods0, stack) == LoadedAll(graph, imports[i..], mods, stack)
      {
        var specifier := imports[i];
        ChainExtends(graph, roots, stack, specifier);
        LoadedStep(graph, imports, i, mods, stack);
        if specifier in resolved {
          continue;
        } else if specifier in stack {
          return Some(CyclicDependency(stack, specifier));
        } else {
          error := LoadOne(specifier);
          if error.Some? {
            return;
          }
        }
      }
      LoadedNothing(graph, imports, mods, stack);
      return None;
    }

    lemma ResolvedAreLoaded()
      requires Valid()
      ensures forall x :: x in resolved <==> x in mods
    {
    }

    /** The body of the loop for a mod that is new. */
    method LoadOne(specifier: Specifier) returns (error: Option<LoadError>)
      requires Valid() && specifier in graph && specifier !in resolved && specifier !in stack
      requires IsChain(graph, roots, stack + [specifier]) && Reachable(graph, roots, specifier)
      modifies `mods, `stack, `resolved
      ensures error.None? ==> Valid() && stack == old(stack) && old(mods) <= mods && specifier in mods
      ensures error.Some? ==> Justified(graph, roots, error.value)
      ensures LoadedOne(graph, specifier, old(mods), old(stack)) == if error.None? then Some(mods) else None
      decreases Unstacked(graph, stack), 0
    {
      hide IsLoad, IsChain, Reachable, Unstacked, MayFollow, Dependencies, Justified, LoadedAll, LoadedOne, Sorted;
      ResolvedAreLoaded();
      LoadedNew(graph, specifier, mods, stack);
      StackingLeavesFewer(graph, stack, specifier);
      DependenciesFollow(graph, roots, stack, specifier);
      LoadBegins(graph, roots, mods, stack, resolved, specifier);
      LoadMeans(graph, roots, mods, stack, resolved);
      stack := stack + [specifier];
      error := Load(Dependencies(graph, specifier));
      if error.Some? {
        return;
      }
      stack := stack[..|stack| - 1];
      LoadEnds(graph, roots, mods, stack, resolved, specifier);
      mods := mods + [specifier];
      resolved := resolved + {specifier};
    }
  }

  /** Errors have a reason in the graph. */
  ghost predicate Justified(graph: Graph, roots: seq<Specifier>, error: LoadError) {
    match error
    case NotFound(x) => x !in graph && Reachable(graph, roots, x)
    case CyclicDependency(stack, x) => x in stack && IsChain(graph, roots, stack + [x])
  }

  lemma PushedIsDistinct(s: seq<Specifier>, x: Specifier)
    requires Distinct(s) && x !in s
    ensures Distinct(s + [x])
  {
  }

  lemma DependenciesCome(graph: Graph, mods: seq<Specifier>, x: Specifier)
    requires DependenciesFirst(graph, mods) && AllBefore(Dependencies(graph, x), mods)
    ensures DependenciesFirst(graph, mods + [x])
  {
    var more := mods + [x];
    forall k | 0 <= k < |more| ensures AllBefore(Dependencies(graph, more[k]), more[..k]) {
      assert k < |mods| ==> more[..k] == mods[..k];
      assert k == |mods| ==> more[..k] == mods;
    }
  }

  // What loading means

  lemma {:induction false} ChainIsLoaded(graph: Graph, roots: seq<Specifier>, mods: seq<Specifier>,
      chain: seq<Specifier>, i: nat)
    requires IsChain(graph, roots, chain) && i < |chain|
    requires DependenciesFirst(graph, mods) && forall r :: r in roots ==> r in mods
    ensures chain[i] in mods
  {
    if i > 0 {
      ChainIsLoaded(graph, roots, mods, chain, i - 1);
      var k :| 0 <= k < |mods| && mods[k] == chain[i - 1];
      assert AllBefore(Dependencies(graph, mods[k]), mods[..k]);
    }
  }

  /** Along a chain, mods come ever earlier. */
  lemma {:induction false} ChainDescends(graph: Graph, roots: seq<Specifier>, mods: seq<Specifier>,
      chain: seq<Specifier>, i: nat, j: nat) returns (a: nat, b: nat)
    requires IsChain(graph, roots, chain) && i < j < |chain|
    requires DependenciesFirst(graph, mods) && Distinct(mods) && forall r :: r in roots ==> r in mods
    ensures b < a < |mods| && mods[a] == chain[i] && mods[b] == chain[j]
    decreases j
  {
    hide DependenciesFirst;
    var k: nat;
    if i == j - 1 {
      ChainIsLoaded(graph, roots, mods, chain, i);
      a :| 0 <= a < |mods| && mods[a] == chain[i];
      k := a;
    } else {
      a, k := ChainDescends(graph, roots, mods, chain, i, j - 1);
    }
    DependenciesAt(graph, mods, k);
    assert chain[j] in Dependencies(graph, chain[j - 1]);
    b :| 0 <= b < k && mods[b] == chain[j];
  }

  lemma DependenciesAt(graph: Graph, mods: seq<Specifier>, k: nat)
    requires DependenciesFirst(graph, mods) && k < |mods|
    ensures forall d :: d in Dependencies(graph, mods[k]) ==> exists b :: 0 <= b < k && mods[b] == d
  {
    assert AllBefore(Dependencies(graph, mods[k]), mods[..k]);
    forall d | d in Dependencies(graph, mods[k]) ensures exists b :: 0 <= b < k && mods[b] == d {
      var b :| 0 <= b < k && mods[..k][b] == d;
      assert mods[b] == d;
    }
  }

  /** Mods can be put in order only where no cycle is in reach. */
  lemma OrderedHasNoCycle(graph: Graph, roots: seq<Specifier>, mods: seq<Specifier>)
    requires DependenciesFirst(graph, mods) && Distinct(mods) && forall r :: r in roots ==> r in mods
    ensures !CycleReachable(graph, roots)
  {
    hide DependenciesFirst, IsChain;
    if CycleReachable(graph, roots) {
      var chain :| IsChain(graph, roots, chain) && !Distinct(chain);
      var i, j :| 0 <= i < j < |chain| && chain[i] == chain[j];
      var a, b := ChainDescends(graph, roots, mods, chain, i, j);
      assert false;
    }
  }

  lemma AllReachableLoaded(graph: Graph, roots: seq<Specifier>, mods: seq<Specifier>, x: Specifier)
    requires DependenciesFirst(graph, mods) && (forall r :: r in roots ==> r in mods) && Reachable(graph, roots, x)
    ensures x in mods
  {
    hide DependenciesFirst;
    var chain :| IsChain(graph, roots, chain) && chain[|chain| - 1] == x;
    ChainIsLoaded(graph, roots, mods, chain, |chain| - 1);
  }

  lemma ErrorsMean(graph: Graph, roots: seq<Specifier>, error: LoadError)
    requires Justified(graph, roots, error)
    ensures error.NotFound? ==> !AllFound(graph, roots)
    ensures error.CyclicDependency? ==> CycleReachable(graph, roots)
  {
    hide IsChain, Reachable;
    match error
    case NotFound(x) =>
    case CyclicDependency(stack, x) =>
      var chain := stack + [x];
      var i :| 0 <= i < |stack| && stack[i] == x;
      assert chain[i] == chain[|stack|];
  }

  /**
   * Loading ends for every graph. It fails exactly if something in reach is missing or a cycle is in
   * reach; else it lists each specifier in reach once, after all that it depends on.
   */
  method LoadMods(graph: Graph, roots: seq<Specifier>) returns (mods: seq<Specifier>, error: Option<LoadError>)
    ensures error.None? <==> AllFound(graph, roots) && !CycleReachable(graph, roots)
    ensures error.None? ==> Distinct(mods) && DependenciesFirst(graph, mods)
    ensures error.None? ==> forall x :: x in mods <==> Reachable(graph, roots, x)
    ensures error.Some? ==> Justified(graph, roots, error.value)
    ensures Listing(graph, roots) == if error.None? then Some(mods) else None
  {
    hide DependenciesFirst, IsChain, Reachable, Distinct, Justified, CycleReachable, LoadedAll;
    var loader := new Loader(graph, roots);
    error := loader.Load(roots);
    mods := loader.mods;
    if error.None? {
      OrderedHasNoCycle(graph, roots, mods);
      forall x | Reachable(graph, roots, x) ensures x in mods {
        AllReachableLoaded(graph, roots, mods, x);
      }
    } else {
      ErrorsMean(graph, roots, error.value);
    }
  }
}
