/** Why A* with a consistent heuristic finds a cheapest path: what expansion keeps, and what follows. */
module Optimality {
  import opened Positions
  import opened Terrain
  import opened Heuristics
  import opened Searches

  /** Step `i` of a path is a move onto a passable tile of a room that the search admitted. */
  predicate StepAt(q: Query, s: State, path: seq<Pos>, i: nat)
    requires q.Valid() && i < |path| - 1
  {
    CanMove(path[i], path[i + 1]) && q.Cost(path[i + 1]) != OBSTACLE && s.Admits(path[i + 1])
  }

  predicate IsPath(q: Query, s: State, path: seq<Pos>)
    requires q.Valid()
  {
    |path| > 0 && path[0] == s.origin && forall i :: 0 <= i < |path| - 1 ==> StepAt(q, s, path, i)
  }

  lemma PathPrefix(q: Query, s: State, path: seq<Pos>, n: nat)
    requires q.Valid() && IsPath(q, s, path) && 0 < n <= |path|
    ensures IsPath(q, s, path[..n])
  {
    hide Query.Cost, CanMove, State.Admits;
    forall i | 0 <= i < n - 1 ensures StepAt(q, s, path[..n], i) {
      assert StepAt(q, s, path, i);
    }
  }

  /** The cost of entering every tile of a path but the first. */
  function PathCost(q: Query, path: seq<Pos>): nat
    requires q.Valid()
  {
    if |path| <= 1 then 0 else PathCost(q, path[..|path| - 1]) + q.Cost(path[|path| - 1])
  }

  /** A room that this search has turned away, for good. */
  predicate Refuses(q: Query, s: State, r: Room) {
    r !in s.rooms && (r in s.blocked || |s.rooms| >= q.env.maxRooms)
  }

  /** One move from `n` has been looked at: the tile was reached no dearer than through `n`, or its room refused. */
  predicate Tried(q: Query, s: State, n: Pos, v: Pos)
    requires q.Valid() && n in s.g
  {
    CanMove(n, v) && q.Cost(v) != OBSTACLE ==>
      && v.InWorld()
      && if RoomOf(v) in s.rooms then v in s.g && s.g[v] <= s.g[n] + q.Cost(v) else Refuses(q, s, RoomOf(v))
  }

  ghost predicate Relaxed(q: Query, s: State, n: Pos)
    requires q.Valid() && n in s.g
  {
    forall v :: Tried(q, s, n, v)
  }

  /** Every closed node but perhaps the newest has been expanded. */
  ghost predicate ExpandedBut(q: Query, s: State, newest: Pos)
    requires q.Valid() && s.closed <= s.g.Keys
  {
    forall n :: n in s.closed && n != newest ==> Relaxed(q, s, n)
  }

  /** Closed nodes were no dearer than open ones are. */
  ghost predicate Frontier(q: Query, s: State, bound: int)
    requires q.Valid() && s.closed <= s.g.Keys
  {
    && (forall p :: p in s.closed ==> F(q, s, p) <= bound)
    && forall p :: s.IsOpen(p) ==> bound <= F(q, s, p)
  }

  lemma WeightOne(q: Query, p: Pos)
    requires q.weight == 1.0
    ensures q.WeightedH(p) == q.H(p)
  {
  }

  /** The heuristic is consistent: a move never saves more than it costs. */
  lemma Consistent(q: Query, p: Pos, v: Pos)
    requires q.Valid() && q.weight == 1.0 && Adjacent(p, v) && q.Cost(v) != OBSTACLE
    ensures q.WeightedH(p) <= q.Cost(v) + q.WeightedH(v)
  {
    hide Query.Cost, Heuristic.At;
    Lipschitz(q.heuristic, p, v);
    WeightOne(q, p);
    WeightOne(q, v);
  }

  /** Rooms never change their answer, so what was tried stays tried. */
  lemma TriedIsStable(q: Query, s: State, s': State, n: Pos, v: Pos)
    requires q.Valid() && n in s.closed && n in s.g && n in s'.g && Extends(s, s')
    requires forall r :: r in s'.rooms && r !in s.rooms ==> !Refuses(q, s, r)
    requires Tried(q, s, n, v)
    ensures Tried(q, s', n, v)
  {
    hide Query.Cost, CanMove;
  }

  /** Admitted rooms had not been refused. */
  predicate HonoursRefusals(q: Query, s: State, s': State) {
    forall r :: r in s'.rooms && r !in s.rooms ==> !Refuses(q, s, r)
  }

  lemma ExpandedIsStable(q: Query, s: State, s': State, newest: Pos)
    requires q.Valid() && s.closed <= s.g.Keys && s'.closed <= s'.g.Keys
    requires Extends(s, s') && HonoursRefusals(q, s, s') && ExpandedBut(q, s, newest)
    ensures ExpandedBut(q, s', newest)
  {
    hide Query.Cost, CanMove, Tried;
    forall n | n in s'.closed && n != newest ensures Relaxed(q, s', n) {
      forall v ensures Tried(q, s', n, v) {
        assert n in s.closed && Relaxed(q, s, n);
        TriedIsStable(q, s, s', n, v);
      }
    }
  }

  /** Pushing a neighbour of the newest closed node tries the move to it, and keeps the frontier. */
  lemma PushTries(q: Query, s: State, n: Pos, v: Pos)
    requires q.Valid() && q.weight == 1.0 && Sound(q, s) && n in s.closed && s.Admits(v)
    requires Adjacent(n, v) && q.Cost(v) != OBSTACLE
    requires Frontier(q, s, F(q, s, n))
    ensures var s' := Push(s, v, n, s.g[n] + q.Cost(v));
      && Tried(q, s', n, v) && n in s'.g && s'.g[n] == s.g[n]
      && s'.closed <= s'.g.Keys && Frontier(q, s', F(q, s', n))
  {
    hide Query.Cost, CanMove, Link, RoomsAreSound, Query.WeightedH;
    Consistent(q, n, v);
    var s' := Push(s, v, n, s.g[n] + q.Cost(v));
    assert forall p :: s'.IsOpen(p) ==> p == v || s.IsOpen(p);
  }

  /** Closing the cheapest open node keeps the frontier. */
  lemma CloseKeepsFrontier(q: Query, s: State, p: Pos, bound: int)
    requires q.Valid() && s.closed <= s.g.Keys && s.IsOpen(p) && Frontier(q, s, bound)
    requires forall x :: s.IsOpen(x) ==> F(q, s, p) <= F(q, s, x)
    ensures Frontier(q, Close(s, p), F(q, s, p))
  {
    hide Query.WeightedH;
    assert forall x :: Close(s, p).IsOpen(x) ==> s.IsOpen(x);
  }

  lemma CloseKeepsExpanded(q: Query, s: State, p: Pos, newest: Pos)
    requires q.Valid() && s.closed <= s.g.Keys && p in s.g && ExpandedBut(q, s, newest)
    requires newest in s.closed ==> Relaxed(q, s, newest)
    ensures ExpandedBut(q, Close(s, p), p)
  {
    hide Tried;
    var s' := Close(s, p);
    forall n | n in s'.closed && n != p ensures Relaxed(q, s', n) {
      assert Relaxed(q, s, n);
      forall v ensures Tried(q, s', n, v) {
        SameTried(q, s, s', n, v);
      }
    }
  }

  lemma SameTried(q: Query, s: State, s': State, n: Pos, v: Pos)
    requires q.Valid() && n in s.g && s'.g == s.g && s'.rooms == s.rooms && s'.blocked == s.blocked
    requires Tried(q, s, n, v)
    ensures Tried(q, s', n, v)
  {
    hide Query.Cost, CanMove;
  }

  // Along a path

  lemma {:induction false} PathCostSplits(q: Query, path: seq<Pos>, i: nat)
    requires q.Valid() && i < |path|
    ensures PathCost(q, path) == PathCost(q, path[..i + 1]) + PathCost(q, path[i..])
    decreases |path|
  {
    hide Query.Cost;
    if i == |path| - 1 {
      assert path[..i + 1] == path;
    } else {
      var front := path[..|path| - 1];
      PathCostSplits(q, front, i);
      assert front[..i + 1] == path[..i + 1];
      assert path[i..][..|path[i..]| - 1] == front[i..];
    }
  }

  /** What remains of a path costs at least what the heuristic saves on it. */
  lemma {:induction false} ConsistentAlong(q: Query, s: State, path: seq<Pos>, i: nat)
    requires q.Valid() && q.weight == 1.0 && IsPath(q, s, path) && i < |path|
    ensures q.WeightedH(path[i]) <= PathCost(q, path[i..]) + q.WeightedH(path[|path| - 1])
    decreases |path|
  {
    hide Query.Cost, Query.WeightedH, CanMove, State.Admits;
    if i < |path| - 1 {
      var last := |path| - 1;
      var front := path[..last];
      PathPrefix(q, s, path, last);
      ConsistentAlong(q, s, front, i);
      assert path[i..][..|path[i..]| - 1] == front[i..];
      Moves(q, s, path, last - 1);
      Consistent(q, path[last - 1], path[last]);
    }
  }

  lemma Moves(q: Query, s: State, path: seq<Pos>, i: nat)
    requires q.Valid() && IsPath(q, s, path) && i < |path| - 1
    ensures Adjacent(path[i], path[i + 1]) && CanMove(path[i], path[i + 1])
    ensures q.Cost(path[i + 1]) != OBSTACLE && s.Admits(path[i + 1])
  {
    hide Query.Cost, State.Admits, Impossible;
    assert StepAt(q, s, path, i);
  }

  /** A path leads through closed nodes, none dearer than the path so far, up to its first open node. */
  lemma {:induction false} FirstOpen(q: Query, s: State, path: seq<Pos>) returns (j: nat)
    requires q.Valid() && Sound(q, s) && IsPath(q, s, path)
    requires forall n :: n in s.closed ==> Relaxed(q, s, n)
    ensures j < |path| && path[j] in s.g && s.g[path[j]] <= PathCost(q, path[..j + 1])
    ensures path[j] in s.closed ==> j == |path| - 1
    decreases |path|
  {
    hide Query.Cost, CanMove, State.Admits, Link, RoomsAreSound;
    if |path| == 1 {
      j := 0;
    } else {
      var last := |path| - 1;
      var front := path[..last];
      PathPrefix(q, s, path, last);
      j := FirstOpen(q, s, front);
      assert front[..j + 1] == path[..j + 1];
      if path[j] in s.closed {
        Moves(q, s, path, j);
        assert Tried(q, s, path[j], path[last]);
        AdmitsIsInRooms(s, path[last]);
        assert path[..last + 1] == path;
        j := last;
      }
    }
  }

  lemma AdmitsIsInRooms(s: State, p: Pos)
    requires s.Admits(p)
    ensures p.InWorld() && RoomOf(p) in s.rooms
  {
  }

  /**
   * When the cheapest open node is a goal and no goal was closed before it, no path to any goal within
   * the admitted rooms costs less.
   */
  lemma {:induction false} GoalIsCheapest(q: Query, s: State, goal: Pos, path: seq<Pos>)
    requires q.Valid() && q.weight == 1.0 && Sound(q, s)
    requires forall n :: n in s.closed ==> Relaxed(q, s, n) && q.H(n) != 0
    requires s.IsOpen(goal) && q.H(goal) == 0 && forall x :: s.IsOpen(x) ==> F(q, s, goal) <= F(q, s, x)
    requires IsPath(q, s, path) && q.H(path[|path| - 1]) == 0
    ensures s.g[goal] <= PathCost(q, path)
  {
    hide Query.Cost, Query.WeightedH, Sound, IsPath, Query.H;
    var j := FirstOpen(q, s, path);
    assert s.IsOpen(path[j]);
    ConsistentAlong(q, s, path, j);
    PathCostSplits(q, path, j);
    WeightOne(q, goal);
    WeightOne(q, path[|path| - 1]);
  }

  /** When nothing is open, every tile that any path reaches was closed. */
  lemma DrainedIsComplete(q: Query, s: State, path: seq<Pos>)
    requires q.Valid() && Sound(q, s) && IsPath(q, s, path)
    requires forall n :: n in s.closed ==> Relaxed(q, s, n)
    requires forall x :: !s.IsOpen(x)
    ensures path[|path| - 1] in s.closed
  {
    hide Query.Cost, Sound, IsPath;
    var j := FirstOpen(q, s, path);
    assert !s.IsOpen(path[j]);
  }
}
